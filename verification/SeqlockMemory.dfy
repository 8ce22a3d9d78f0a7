/**
 seqlock_fib together with its reclamation: a reader may hold a node that the writer has just unlinked, and no check of
 the sequence makes freeing it safe, so the reader's visit happens under a read guard.

 The state is that of SeqlockFib and that of RcuFib, over one trie and one set of walkers.
 */
module SeqlockMemory {
  import opened Wrappers
  import opened Bits
  import CT = ConcurrentTrie
  import EP = EpochProtocol
  import S = SeqlockFib
  import M = RcuFib

  datatype State = State(memory: M.State, lock: S.State<nat, nat>)

  datatype Action =
    | Domain(thread: nat, step: EP.Action)
    | Lock(thread: nat, protocol: S.Action<nat, nat>)
    | Walk(thread: nat, walk: CT.Action<nat, nat>)
    | Write(thread: nat, store: CT.Action<nat, nat>)

  /** A thread in the middle of a visit. */
  predicate Visiting(s: State, t: nat) {
    t < |s.lock.phases| && !s.lock.phases[t].Resting? && !s.lock.phases[t].Accepted?
  }

  /** A visit takes its guard before it enters and keeps it until a check accepts. */
  ghost predicate Enabled(s: State, a: Action, maxBits: nat) {
    match a
    case Domain(t, step) => M.Enabled(s.memory, M.Domain(t, step), maxBits) && (step.Unpin? ==> !Visiting(s, t))
    case Lock(t, protocol) =>
      && !protocol.Walk? && !protocol.Write? && S.Enabled(s.lock, protocol, maxBits)
      && (protocol.Enter? ==>
            protocol.i == t && t < |s.memory.epoch.threads| && s.memory.epoch.threads[t].nesting > 0)
    case Walk(t, walk) =>
      M.Enabled(s.memory, M.Lookup(t, walk), maxBits) && S.Enabled(s.lock, S.Walk(t, walk), maxBits)
    case Write(t, store) =>
      M.Enabled(s.memory, M.Write(t, store), maxBits) && S.Enabled(s.lock, S.Write(store), maxBits)
  }

  ghost function Apply(s: State, a: Action, maxBits: nat): State
    requires Enabled(s, a, maxBits)
  {
    match a
    case Domain(t, step) => s.(memory := M.Apply(s.memory, M.Domain(t, step), maxBits))
    case Lock(_, protocol) => s.(lock := S.Apply(s.lock, protocol, maxBits))
    case Walk(t, walk) =>
      State(M.Apply(s.memory, M.Lookup(t, walk), maxBits), S.Apply(s.lock, S.Walk(t, walk), maxBits))
    case Write(t, store) =>
      State(M.Apply(s.memory, M.Write(t, store), maxBits), S.Apply(s.lock, S.Write(store), maxBits))
  }

  ghost predicate Start(s: State, n: nat) {
    M.Start(s.memory, n) && S.Start(s.lock) && s.lock.core == s.memory.core
  }

  ghost predicate IsRun(n: nat, states: seq<State>, actions: seq<Action>, maxBits: nat) {
    && |states| == |actions| + 1
    && Start(states[0], n)
    && forall i :: 0 <= i < |actions| ==>
         Enabled(states[i], actions[i], maxBits) && states[i + 1] == Apply(states[i], actions[i], maxBits)
  }

  ghost predicate Inv(s: State, maxBits: nat) {
    M.Inv(s.memory, maxBits) && S.Inv(s.lock, maxBits) && s.lock.core == s.memory.core
  }

  /** Both halves see the same trie and the same walkers after every step. */
  lemma StepShares(s: State, a: Action, maxBits: nat)
    requires Enabled(s, a, maxBits) && s.lock.core == s.memory.core
    ensures Apply(s, a, maxBits).lock.core == Apply(s, a, maxBits).memory.core
  {
    hide CT.Apply, CT.Enabled, EP.Apply, EP.Allowed, M.DroppedBy;
  }

  lemma StepKeepsInv(s: State, a: Action, maxBits: nat)
    requires Inv(s, maxBits) && Enabled(s, a, maxBits)
    ensures Inv(Apply(s, a, maxBits), maxBits)
  {
    StepShares(s, a, maxBits);
    hide M.Inv, S.Inv, M.Enabled, S.Enabled, M.Apply, S.Apply;
    match a {
      case Domain(t, step) => M.StepKeepsInv(s.memory, M.Domain(t, step), maxBits);
      case Lock(_, protocol) => S.StepKeepsInv(s.lock, protocol, maxBits);
      case Walk(t, walk) =>
        M.StepKeepsInv(s.memory, M.Lookup(t, walk), maxBits);
        S.StepKeepsInv(s.lock, S.Walk(t, walk), maxBits);
      case Write(t, store) =>
        M.StepKeepsInv(s.memory, M.Write(t, store), maxBits);
        S.StepKeepsInv(s.lock, S.Write(store), maxBits);
    }
  }

  lemma StartInv(s: State, n: nat, maxBits: nat)
    requires Start(s, n)
    ensures Inv(s, maxBits)
  {
    hide M.Inv, M.Start, CT.Inv;
    M.StartInv(s.memory, n, maxBits);
    StartCore(s.lock.core, maxBits);
  }

  lemma StartCore(c: CT.State<nat, nat>, maxBits: nat)
    requires CT.Start(c)
    ensures CT.Inv(c, maxBits)
  {
  }

  lemma {:induction false} RunKeepsInv(n: nat, states: seq<State>, actions: seq<Action>, maxBits: nat, i: nat)
    requires IsRun(n, states, actions, maxBits) && i < |states|
    ensures Inv(states[i], maxBits)
  {
    hide Inv, Enabled, Apply, Start;
    if i == 0 {
      StartInv(states[0], n, maxBits);
    } else {
      RunKeepsInv(n, states, actions, maxBits, i - 1);
      StepKeepsInv(states[i - 1], actions[i - 1], maxBits);
    }
  }

  /** In every run, nothing that a visit holds or can reach on its walk is freed, whether or not the walk will be
      accepted, and neither is an accepted answer until its guard ends. */
  lemma NothingReachableIsFreed(
      n: nat, states: seq<State>, actions: seq<Action>, maxBits: nat, i: nat, u: nat, path: seq<nat>, k: nat)
    requires IsRun(n, states, actions, maxBits) && i < |states| && u < |states[i].memory.core.walkers|
    requires CT.Walking(states[i].memory.core.walkers[u]) || u in states[i].memory.guarded
    ensures var s, w := states[i].memory, states[i].memory.core.walkers[u];
      && u in s.guarded
      && (w.best.Some? ==> !M.Freed(s.epoch, M.BoxObject(w.best.value.1)))
      && (M.Path(s.core.t, path) && M.Position(w) == Some(path[0]) && k < |path| ==>
            && !M.Freed(s.epoch, M.NodeObject(path[k]))
            && (s.core.t.mem[path[k]].value.Some? ==>
                  !M.Freed(s.epoch, M.BoxObject(s.core.t.mem[path[k]].value.value))))
  {
    hide S.Inv, M.Freed, M.Path, M.Position;
    RunKeepsInv(n, states, actions, maxBits, i);
    M.GuardProtects(states[i].memory, maxBits, u, path, k);
  }

  /** And every accepted answer is that of a batch boundary within its visit. */
  lemma AnswersAreOfBoundaries(n: nat, states: seq<State>, actions: seq<Action>, maxBits: nat, i: nat, r: nat)
    requires IsRun(n, states, actions, maxBits) && i < |states|
    requires r < |states[i].lock.phases| && states[i].lock.phases[r].Accepted?
    ensures var s, visit := states[i].lock, states[i].lock.phases[r];
      && visit.since <= visit.before / 2 < |s.tables| && S.Batched(s.tables, s.batches)
      && visit.answer == Lpm(s.tables[visit.before / 2], visit.address)
  {
    hide M.Inv, CT.Inv, Lpm, S.Batched;
    RunKeepsInv(n, states, actions, maxBits, i);
    assert S.PhaseOk(states[i].lock, r);
  }
}
