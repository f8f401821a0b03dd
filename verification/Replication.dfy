/** Any number of mounts, of any number of peers, record, exchange, save and load operation logs in any order. */
module Replication {
  import opened Content
  import opened PathOps

  /** An open mount of a bucket: the peer whose key it holds, and its live log. A peer may have several open. */
  datatype Live = Live(peer: PublicKey, log: Log)

  /** The open mounts and the log of every version that was ever saved. No mount sees `issued`: it holds, by id, every
      operation that was ever recorded. */
  datatype System = System(mounts: map<nat, Live>, saved: set<Ops>, issued: Ops)

  /** What can happen next to the mount `i`. */
  datatype Action =
    | DoOpen(i: nat, peer: PublicKey, ops: Ops)
    | DoClose(i: nat)
    | DoRecord(i: nat, opType: OpType, path: Path, link: Option<Link>, isDir: bool)
    | DoMergeLive(i: nat, from: nat)
    | DoMergeSaved(i: nat, ops: Ops)
    | DoSave(i: nat)

  ghost predicate Enabled(s: System, a: Action) {
    && (a.DoOpen? <==> a.i !in s.mounts)
    && (a.DoMergeLive? ==> a.from in s.mounts)
    && (a.DoMergeSaved? || a.DoOpen? ==> a.ops in s.saved)
  }

  /** The operation that an action records. */
  ghost function RecordedBy(s: System, a: Action): PathOperation
    requires a.DoRecord? && Enabled(s, a)
  {
    PathOperation(NextId(s.mounts[a.i].log, s.mounts[a.i].peer), a.opType, a.path, a.link, a.isDir)
  }

  /** The log that an action gives to its mount. Loading takes the log of a version, with the clock rebuilt from it;
      saving clears the log and keeps the clock. */
  ghost function LogNext(s: System, a: Action): Log
    requires Enabled(s, a) && !a.DoClose?
  {
    match a
    case DoOpen(_, _, ops) => Rebuilt(ops)
    case DoRecord(i, opType, path, link, isDir) =>
      Record(s.mounts[i].log, s.mounts[i].peer, opType, path, link, isDir)
    case DoMergeLive(i, from) => Merge(s.mounts[i].log, s.mounts[from].log.ops)
    case DoMergeSaved(i, ops) => Merge(s.mounts[i].log, ops)
    case DoSave(i) => Cleared(s.mounts[i].log)
  }

  /** Loading opens a further mount, beside those that are open. */
  ghost function Next(s: System, a: Action): System
    requires Enabled(s, a)
  {
    if a.DoClose? then s.(mounts := s.mounts - {a.i}) else
    var peer := if a.DoOpen? then a.peer else s.mounts[a.i].peer;
    System(s.mounts[a.i := Live(peer, LogNext(s, a))],
           if a.DoSave? then s.saved + {s.mounts[a.i].log.ops} else s.saved,
           if a.DoRecord? then s.issued[RecordedBy(s, a).id := RecordedBy(s, a)] else s.issued)
  }

  /** At first nothing is open, and there is the genesis, which has no operations. */
  ghost predicate Initial(s: System) {
    s == System(map[], {map[]}, map[])
  }

  /** A run: the first state is initial and each state follows from the one before by an enabled action. */
  ghost predicate Run(states: seq<System>, actions: seq<Action>) {
    && |states| == |actions| + 1
    && Initial(states[0])
    && forall i :: 0 <= i < |actions| ==> Enabled(states[i], actions[i]) && states[i + 1] == Next(states[i], actions[i])
  }

  /** The operations of a state: those of a live log or of a saved one. */
  ghost predicate Holds(s: System, ops: Ops) {
    ops in s.saved || exists i :: i in s.mounts && s.mounts[i].log.ops == ops
  }

  /** No id names two operations, in whatever logs, at whatever times. */
  ghost predicate IdsUnique(states: seq<System>) {
    forall i, j, a, b :: 0 <= i <= j < |states| && Holds(states[i], a) && Holds(states[j], b) ==> Agree(a, b)
  }

  // ---------- accounting ----------

  /** Every log is part of what was issued, which holds one operation for each id. */
  ghost predicate Accounted(s: System) {
    Keyed(s.issued) && forall ops :: Holds(s, ops) ==> Extends(ops, s.issued)
  }

  /** An action issues no id for a second operation. */
  ghost predicate IssuesOnce(s: System, a: Action)
    requires Enabled(s, a)
  {
    a.DoRecord? && RecordedBy(s, a).id in s.issued ==> s.issued[RecordedBy(s, a).id] == RecordedBy(s, a)
  }

  lemma ExtendsMore(few: Ops, issued: Ops, op: PathOperation)
    requires Extends(few, issued) && (op.id in issued ==> issued[op.id] == op)
    ensures Extends(few, issued[op.id := op]) && Extends(few[op.id := op], issued[op.id := op])
  {}

  lemma MergeStaysWithin(l: Log, other: Ops, issued: Ops)
    requires Extends(l.ops, issued) && Extends(other, issued)
    ensures Extends(Merge(l, other).ops, issued)
  {
    MergeIsUnion(l, other);
  }

  /** The log that an action gives to its mount is part of what was issued. */
  lemma LogNextWithin(s: System, a: Action)
    requires Accounted(s) && Enabled(s, a) && IssuesOnce(s, a) && !a.DoClose?
    ensures Extends(LogNext(s, a).ops, Next(s, a).issued)
  {
    if a.DoOpen? {
      assert Holds(s, a.ops);
    } else {
      assert Holds(s, s.mounts[a.i].log.ops);
      match a
      case DoRecord(i, _, _, _, _) => ExtendsMore(s.mounts[i].log.ops, s.issued, RecordedBy(s, a));
      case DoMergeLive(i, from) =>
        assert Holds(s, s.mounts[from].log.ops);
        MergeStaysWithin(s.mounts[i].log, s.mounts[from].log.ops, s.issued);
      case DoMergeSaved(i, ops) =>
        assert Holds(s, ops);
        MergeStaysWithin(s.mounts[i].log, ops, s.issued);
      case DoSave(i) =>
    }
  }

  /** Everything else that is held was held before. */
  lemma HeldBefore(s: System, a: Action, ops: Ops)
    requires Enabled(s, a) && Holds(Next(s, a), ops)
    ensures Holds(s, ops) || (!a.DoClose? && ops == LogNext(s, a).ops)
  {
    if ops !in Next(s, a).saved {
      var j :| j in Next(s, a).mounts && Next(s, a).mounts[j].log.ops == ops;
      if j != a.i {
        assert s.mounts[j] == Next(s, a).mounts[j];
      }
    } else if ops !in s.saved {
      assert s.mounts[a.i].log.ops == ops;
    }
  }

  lemma IssuedGrowsOnce(s: System, a: Action)
    requires Enabled(s, a) && IssuesOnce(s, a)
    ensures Extends(s.issued, Next(s, a).issued)
  {}

  lemma AccountedNext(s: System, a: Action)
    requires Accounted(s) && Enabled(s, a) && IssuesOnce(s, a)
    ensures Accounted(Next(s, a)) && Extends(s.issued, Next(s, a).issued)
  {
    IssuedGrowsOnce(s, a);
    forall ops | Holds(Next(s, a), ops) ensures Extends(ops, Next(s, a).issued) {
      HeldBefore(s, a, ops);
      if Holds(s, ops) {
        assert Extends(ops, s.issued);
      } else {
        LogNextWithin(s, a);
      }
    }
  }

  /** The first states, up to `n`, are accounted for, and what was issued only grows. */
  ghost predicate AccountedUpTo(states: seq<System>, n: nat)
    requires n < |states|
  {
    && (forall k :: 0 <= k <= n ==> Accounted(states[k]))
    && (forall k :: 0 < k <= n ==> Extends(states[k - 1].issued, states[k].issued))
  }

  lemma ExtendsTransitive(a: Ops, b: Ops, c: Ops)
    requires Extends(a, b) && Extends(b, c)
    ensures Extends(a, c)
  {}

  lemma {:induction false} IssuedGrows(states: seq<System>, n: nat, i: nat, j: nat)
    requires i <= j <= n < |states| && AccountedUpTo(states, n)
    ensures Extends(states[i].issued, states[j].issued)
    decreases j
  {
    if i < j {
      IssuedGrows(states, n, i, j - 1);
      ExtendsTransitive(states[i].issued, states[j - 1].issued, states[j].issued);
    }
  }

  /** Logs that are accounted for agree on the ids they share. */
  lemma AccountedAgree(states: seq<System>, n: nat, i: nat, j: nat, a: Ops, b: Ops)
    requires i <= j <= n < |states| && AccountedUpTo(states, n) && Holds(states[i], a) && Holds(states[j], b)
    ensures Keyed(a) && Keyed(b) && Agree(a, b)
  {
    IssuedGrows(states, n, i, j);
    assert Extends(a, states[i].issued) && Extends(b, states[j].issued);
  }

  lemma AccountedIsUnique(states: seq<System>)
    requires states != [] && AccountedUpTo(states, |states| - 1)
    ensures IdsUnique(states)
  {
    forall i, j, a, b | 0 <= i <= j < |states| && Holds(states[i], a) && Holds(states[j], b) ensures Agree(a, b) {
      AccountedAgree(states, |states| - 1, i, j, a, b);
    }
  }

  /** What was issued was held when it was issued. */
  lemma {:induction false} IssuedWasHeld(states: seq<System>, actions: seq<Action>, n: nat, id: OpId)
    returns (i: nat, ops: Ops)
    requires Run(states, actions) && n <= |actions| && id in states[n].issued
    ensures i <= n && Holds(states[i], ops) && id in ops && ops[id] == states[n].issued[id]
  {
    var s, a := states[n - 1], actions[n - 1];
    if a.DoRecord? && id == RecordedBy(s, a).id {
      i, ops := n, states[n].mounts[a.i].log.ops;
    } else {
      i, ops := IssuedWasHeld(states, actions, n - 1, id);
    }
  }

  /** While ids are unique, no step issues an id for a second operation. */
  lemma UniqueIssuesOnce(states: seq<System>, actions: seq<Action>, k: nat)
    requires Run(states, actions) && k < |actions| && IdsUnique(states)
    ensures IssuesOnce(states[k], actions[k])
  {
    var s, a := states[k], actions[k];
    if a.DoRecord? && RecordedBy(s, a).id in s.issued {
      var id := RecordedBy(s, a).id;
      var i, ops := IssuedWasHeld(states, actions, k, id);
      var now := states[k + 1].mounts[a.i].log.ops;
      assert Holds(states[k + 1], now) && Agree(ops, now) && now[id] == RecordedBy(s, a);
    }
  }

  lemma AccountedStep(states: seq<System>, n: nat, a: Action)
    requires n + 1 < |states| && AccountedUpTo(states, n) && Enabled(states[n], a) && IssuesOnce(states[n], a)
    requires states[n + 1] == Next(states[n], a)
    ensures AccountedUpTo(states, n + 1)
  {
    AccountedNext(states[n], a);
  }

  lemma InitialIsAccounted(states: seq<System>)
    requires states != [] && Initial(states[0])
    ensures AccountedUpTo(states, 0) && Safe(states[0])
  {
    forall ops | Holds(states[0], ops) ensures ops == map[] {}
  }

  lemma {:induction false} UniqueIsAccounted(states: seq<System>, actions: seq<Action>, n: nat)
    requires Run(states, actions) && n <= |actions| && IdsUnique(states)
    ensures AccountedUpTo(states, n)
  {
    if n > 0 {
      UniqueIsAccounted(states, actions, n - 1);
      UniqueIssuesOnce(states, actions, n - 1);
      AccountedStep(states, n - 1, actions[n - 1]);
    } else {
      InitialIsAccounted(states);
    }
  }

  // ---------- when a state is safe ----------

  /** No two open mounts hold the same key. */
  ghost predicate KeysApart(s: System) {
    forall i, j :: i in s.mounts && j in s.mounts && i != j ==> s.mounts[i].peer != s.mounts[j].peer
  }

  /** The clock has reached every timestamp that was issued under the key. */
  ghost predicate ClockReached(issued: Ops, peer: PublicKey, clock: nat) {
    forall id :: id in issued && id.peer == peer ==> id.timestamp <= clock
  }

  ghost predicate Safe(s: System) {
    && KeysApart(s)
    && forall i :: i in s.mounts ==> ClockReached(s.issued, s.mounts[i].peer, s.mounts[i].log.clock)
  }

  /** A load is guarded: no open mount holds the key, and the clock of the version has reached what was issued under
      it. */
  ghost predicate Guarded(s: System, a: Action) {
    a.DoOpen? ==>
      && (forall j :: j in s.mounts ==> s.mounts[j].peer != a.peer)
      && ClockReached(s.issued, a.peer, Rebuilt(a.ops).clock)
  }

  /** In a safe state the id that a mount records next has never been issued. */
  lemma RecordsFreshId(s: System, i: nat)
    requires Safe(s) && i in s.mounts
    ensures NextId(s.mounts[i].log, s.mounts[i].peer) !in s.issued
  {}

  lemma SafeIssuesOnce(s: System, a: Action)
    requires Safe(s) && Enabled(s, a)
    ensures IssuesOnce(s, a)
  {
    if a.DoRecord? {
      RecordsFreshId(s, a.i);
    }
  }

  /** An action on an open mount leaves its clock no lower. */
  lemma ClockGrows(s: System, a: Action)
    requires Enabled(s, a) && !a.DoOpen? && !a.DoClose?
    ensures s.mounts[a.i].log.clock + (if a.DoRecord? then 1 else 0) <= LogNext(s, a).clock
  {
    match a
    case DoMergeLive(i, from) => MergeIsUnion(s.mounts[i].log, s.mounts[from].log.ops);
    case DoMergeSaved(i, ops) => MergeIsUnion(s.mounts[i].log, ops);
    case _ =>
  }

  /** A step keeps a safe state safe exactly when it is guarded. */
  lemma SafeNext(s: System, a: Action)
    requires Safe(s) && Enabled(s, a)
    ensures Safe(Next(s, a)) <==> Guarded(s, a)
  {
    var s' := Next(s, a);
    if a.DoOpen? {
      assert s'.mounts[a.i] == Live(a.peer, Rebuilt(a.ops));
      assert forall j :: j in s.mounts ==> s'.mounts[j] == s.mounts[j];
    } else if !a.DoClose? {
      ClockGrows(s, a);
    }
  }

  /** Every load in the first `n` steps is guarded. */
  ghost predicate GuardedRun(states: seq<System>, actions: seq<Action>, n: nat)
    requires n <= |actions| && n < |states|
  {
    forall k :: 0 <= k < n ==> Guarded(states[k], actions[k])
  }

  /** The first states are accounted for, and the last of them is safe. */
  ghost predicate SafeAt(states: seq<System>, n: nat)
    requires n < |states|
  {
    AccountedUpTo(states, n) && Safe(states[n])
  }

  lemma SafeStep(states: seq<System>, n: nat, a: Action)
    requires n + 1 < |states| && SafeAt(states, n) && Enabled(states[n], a) && Guarded(states[n], a)
    requires states[n + 1] == Next(states[n], a)
    ensures SafeAt(states, n + 1)
  {
    SafeIssuesOnce(states[n], a);
    AccountedStep(states, n, a);
    SafeNext(states[n], a);
  }

  lemma {:induction false} Inductive(p: nat -> bool, m: nat, n: nat)
    requires m <= n && p(m) && forall k: nat :: m <= k < n && p(k) ==> p(k + 1)
    ensures p(n)
    decreases n
  {
    if m < n {
      Inductive(p, m, n - 1);
    }
  }

  /** From a safe state on, guarded steps keep everything accounted for and the state safe. */
  lemma SafeAlong(states: seq<System>, actions: seq<Action>, m: nat, n: nat)
    requires Run(states, actions) && m <= n <= |actions| && SafeAt(states, m)
    requires forall k :: m <= k < n ==> Guarded(states[k], actions[k])
    ensures SafeAt(states, n)
  {
    var p := (k: nat) => k < |states| && SafeAt(states, k);
    forall k: nat | m <= k < n && p(k) ensures p(k + 1) {
      SafeStep(states, k, actions[k]);
    }
    Inductive(p, m, n);
  }

  lemma GuardedIsSafe(states: seq<System>, actions: seq<Action>, n: nat)
    requires Run(states, actions) && n <= |actions| && GuardedRun(states, actions, n)
    ensures SafeAt(states, n)
  {
    InitialIsAccounted(states);
    SafeAlong(states, actions, 0, n);
  }

  // ---------- strong eventual consistency ----------

  /** In every run whose loads are guarded, any two logs held at any two times, by any mount, live or saved, have the
      same operation under every id they share: no id ever names two operations. */
  lemma IdsAreUnique(states: seq<System>, actions: seq<Action>, i: nat, j: nat, a: Ops, b: Ops)
    requires Run(states, actions) && i <= j <= |actions| && GuardedRun(states, actions, j)
    requires Holds(states[i], a) && Holds(states[j], b)
    ensures Keyed(a) && Keyed(b) && Agree(a, b)
  {
    GuardedIsSafe(states, actions, j);
    AccountedAgree(states, j, i, j, a, b);
  }

  /** Replicas that hold the same ids show the same state, whenever and however they came to hold them. */
  lemma SameIdsSameState(states: seq<System>, actions: seq<Action>, i: nat, j: nat, a: Ops, b: Ops)
    requires Run(states, actions) && i <= j <= |actions| && GuardedRun(states, actions, j)
    requires Holds(states[i], a) && Holds(states[j], b) && a.Keys == b.Keys
    ensures a == b && ResolveAll(a) == ResolveAll(b)
  {
    IdsAreUnique(states, actions, i, j, a, b);
  }

  lemma MergeCommutes(a: Log, b: Log)
    requires Agree(a.ops, b.ops)
    ensures Merge(a, b.ops).ops == Merge(b, a.ops).ops
  {
    MergeIsUnion(a, b.ops);
    MergeIsUnion(b, a.ops);
  }

  lemma MergeAssociates(a: Log, b: Log, c: Log)
    ensures Merge(Merge(a, b.ops), c.ops).ops == Merge(a, Merge(b, c.ops).ops).ops
  {
    MergeIsUnion(a, b.ops);
    MergeIsUnion(Merge(a, b.ops), c.ops);
    MergeIsUnion(b, c.ops);
    MergeIsUnion(a, Merge(b, c.ops).ops);
    UnionAssociates(c.ops, b.ops, a.ops);
  }

  lemma UnionAssociates(a: Ops, b: Ops, c: Ops)
    ensures a + (b + c) == (a + b) + c
  {}

  /** On logs that agree, the merge is commutative, associative and idempotent on operations. */
  lemma MergeAlgebra(a: Log, b: Log, c: Log)
    requires Agree(a.ops, b.ops)
    ensures Merge(a, b.ops).ops == Merge(b, a.ops).ops
    ensures Merge(Merge(a, b.ops), c.ops).ops == Merge(a, Merge(b, c.ops).ops).ops
    ensures Merge(a, a.ops) == a
  {
    MergeCommutes(a, b);
    MergeAssociates(a, b, c);
    MergeOfOwn(a, a.ops.Keys);
  }

  lemma {:induction false} MergeOfOwn(l: Log, ids: set<OpId>)
    requires ids <= l.ops.Keys
    ensures MergeIds(l, l.ops, ids) == l
  {
    if ids != {} {
      MergeOfOwn(l, ids - {Greatest(ids)});
    }
  }

  // ---------- exactly when ids stay unique ----------

  /** A longer run, which goes on with records of open mounts. */
  ghost predicate Recording(states: seq<System>, actions: seq<Action>, longer: seq<System>, acts: seq<Action>) {
    && Run(longer, acts) && states <= longer && actions <= acts
    && forall k :: |actions| <= k < |acts| ==> acts[k].DoRecord?
  }

  lemma RecordingMore(states: seq<System>, actions: seq<Action>, longer: seq<System>, acts: seq<Action>, a: Action)
    requires Recording(states, actions, longer, acts) && a.DoRecord? && Enabled(longer[|acts|], a)
    ensures Recording(states, actions, longer + [Next(longer[|acts|], a)], acts + [a])
  {
    OneMoreStep(longer, acts, a);
  }

  lemma OneMoreStep(states: seq<System>, actions: seq<Action>, a: Action)
    requires Run(states, actions) && Enabled(states[|actions|], a)
    ensures Run(states + [Next(states[|actions|], a)], actions + [a])
  {}

  /** From a safe state ids stay unique. */
  lemma SafeStaysUnique(states: seq<System>, actions: seq<Action>, longer: seq<System>, acts: seq<Action>)
    requires Run(states, actions) && IdsUnique(states) && Safe(states[|actions|])
    requires Recording(states, actions, longer, acts)
    ensures IdsUnique(longer)
  {
    UniqueIsAccounted(states, actions, |actions|);
    SameAccounted(states, longer, |actions|);
    SafeAlong(longer, acts, |actions|, |acts|);
    AccountedIsUnique(longer);
  }

  lemma SameAccounted(states: seq<System>, longer: seq<System>, n: nat)
    requires n < |states| && states <= longer && AccountedUpTo(states, n) && Safe(states[n])
    ensures SafeAt(longer, n)
  {}

  /** The operation of this id is at this path. */
  ghost predicate HasAt(ops: Ops, id: OpId, path: Path) {
    id in ops && ops[id].path == path
  }

  /** The mount has recorded `n` operations at the path, the last under the id that the clock gives, and no other mount
      has changed. */
  ghost predicate Recorded(s: System, t: System, i: nat, path: Path, n: nat)
    requires i in s.mounts
  {
    && i in t.mounts && t.mounts == s.mounts[i := t.mounts[i]] && t.mounts[i].peer == s.mounts[i].peer
    && t.mounts[i].log.clock == s.mounts[i].log.clock + n
    && (n > 0 ==> HasAt(t.mounts[i].log.ops, OpId(s.mounts[i].log.clock + n, s.mounts[i].peer), path))
  }

  lemma RecordedOnce(s: System, t: System, i: nat, path: Path, n: nat)
    requires i in s.mounts && Recorded(s, t, i, path, n)
    ensures Recorded(s, Next(t, DoRecord(i, Add, path, None, false)), i, path, n + 1)
  {}

  /** A mount goes on to record `n` operations at one path. */
  lemma {:induction false} RecordMany(states: seq<System>, actions: seq<Action>, i: nat, path: Path, n: nat)
    returns (longer: seq<System>, acts: seq<Action>)
    requires Run(states, actions) && i in states[|actions|].mounts
    ensures Recording(states, actions, longer, acts) && Recorded(states[|actions|], longer[|acts|], i, path, n)
  {
    longer, acts := states, actions;
    if n > 0 {
      longer, acts := RecordMany(states, actions, i, path, n - 1);
      var a := DoRecord(i, Add, path, None, false);
      RecordedOnce(states[|actions|], longer[|acts|], i, path, n - 1);
      RecordingMore(states, actions, longer, acts, a);
      longer, acts := longer + [Next(longer[|acts|], a)], acts + [a];
    }
  }

  lemma NotUnique(states: seq<System>, k: nat, l: nat, a: Ops, b: Ops, id: OpId, p: Path, q: Path)
    requires k <= l < |states| && Holds(states[k], a) && Holds(states[l], b)
    requires HasAt(a, id, p) && HasAt(b, id, q) && p != q
    ensures !IdsUnique(states)
  {
    assert !Agree(a, b);
  }

  /** A mount whose clock is behind issues an id that was issued under its key, for another operation. */
  lemma BehindRepeats(states: seq<System>, actions: seq<Action>, i: nat, id: OpId)
    returns (longer: seq<System>, acts: seq<Action>)
    requires Run(states, actions) && i in states[|actions|].mounts
    requires var s := states[|actions|];
             id in s.issued && id.peer == s.mounts[i].peer && id.timestamp > s.mounts[i].log.clock
    ensures Recording(states, actions, longer, acts) && !IdsUnique(longer)
  {
    var k, held := IssuedWasHeld(states, actions, |actions|, id);
    var path := held[id].path + [""];
    longer, acts := RecordMany(states, actions, i, path, id.timestamp - states[|actions|].mounts[i].log.clock);
    assert longer[k] == states[k] && Holds(longer[|acts|], longer[|acts|].mounts[i].log.ops);
    NotUnique(longer, k, |acts|, held, longer[|acts|].mounts[i].log.ops, id, held[id].path, path);
  }

  lemma RecordingOfRecording(states: seq<System>, actions: seq<Action>, more: seq<System>, mores: seq<Action>,
                             longer: seq<System>, acts: seq<Action>)
    requires Recording(states, actions, more, mores) && Recording(more, mores, longer, acts)
    ensures Recording(states, actions, longer, acts)
  {
    assert forall k :: |actions| <= k < |mores| ==> acts[k] == mores[k];
  }

  /** Two mounts with one key: the one whose clock is lower records up to the next id of the other, and they collide. */
  lemma TwoOfOneKeyCollide(states: seq<System>, actions: seq<Action>, i: nat, j: nat)
    returns (longer: seq<System>, acts: seq<Action>)
    requires Run(states, actions)
    requires var mounts := states[|actions|].mounts;
             && i in mounts && j in mounts && i != j && mounts[i].peer == mounts[j].peer
             && mounts[i].log.clock <= mounts[j].log.clock
    ensures Recording(states, actions, longer, acts) && !IdsUnique(longer)
  {
    var mounts := states[|actions|].mounts;
    var more, mores := RecordMany(states, actions, i, ["a"], mounts[j].log.clock - mounts[i].log.clock + 1);
    longer, acts := RecordMany(more, mores, j, ["b"], 1);
    RecordingOfRecording(states, actions, more, mores, longer, acts);
    Collision(mounts, more[|mores|], longer[|acts|], i, j);
    var t := longer[|acts|];
    assert Holds(t, t.mounts[i].log.ops) && Holds(t, t.mounts[j].log.ops);
    NotUnique(longer, |acts|, |acts|, t.mounts[i].log.ops, t.mounts[j].log.ops,
              OpId(mounts[j].log.clock + 1, mounts[j].peer), ["a"], ["b"]);
  }

  lemma Collision(mounts: map<nat, Live>, t: System, u: System, i: nat, j: nat)
    requires i in mounts && j in mounts && i != j && mounts[i].peer == mounts[j].peer
    requires mounts[i].log.clock <= mounts[j].log.clock && j in t.mounts
    requires Recorded(System(mounts, {}, map[]), t, i, ["a"], mounts[j].log.clock - mounts[i].log.clock + 1)
    requires Recorded(t, u, j, ["b"], 1)
    ensures var id := OpId(mounts[j].log.clock + 1, mounts[j].peer);
            && i in u.mounts && j in u.mounts
            && HasAt(u.mounts[i].log.ops, id, ["a"]) && HasAt(u.mounts[j].log.ops, id, ["b"])
  {
    assert u.mounts[i] == t.mounts[i] && t.mounts[j] == mounts[j];
  }

  /** An unsafe state has a continuation by records in which an id names two operations. */
  lemma UnsafeBreaks(states: seq<System>, actions: seq<Action>) returns (longer: seq<System>, acts: seq<Action>)
    requires Run(states, actions) && !Safe(states[|actions|])
    ensures Recording(states, actions, longer, acts) && !IdsUnique(longer)
  {
    var s := states[|actions|];
    if !KeysApart(s) {
      var i, j :| i in s.mounts && j in s.mounts && i != j && s.mounts[i].peer == s.mounts[j].peer;
      if s.mounts[i].log.clock <= s.mounts[j].log.clock {
        longer, acts := TwoOfOneKeyCollide(states, actions, i, j);
      } else {
        longer, acts := TwoOfOneKeyCollide(states, actions, j, i);
      }
    } else {
      var i :| i in s.mounts && !ClockReached(s.issued, s.mounts[i].peer, s.mounts[i].log.clock);
      var id :| id in s.issued && id.peer == s.mounts[i].peer && id.timestamp > s.mounts[i].log.clock;
      longer, acts := BehindRepeats(states, actions, i, id);
    }
  }

  /** Exactly when ids stay unique. After any run in which they are, whatever was opened and closed, every longer run
      that goes on with records of the open mounts keeps them unique if and only if no two open mounts hold the same key
      and the clock of each has reached the last timestamp that was issued under its key. */
  lemma UniqueExactlyWhen(states: seq<System>, actions: seq<Action>)
    requires Run(states, actions) && IdsUnique(states)
    ensures (forall longer, acts :: Recording(states, actions, longer, acts) ==> IdsUnique(longer))
            <==> Safe(states[|actions|])
  {
    if Safe(states[|actions|]) {
      forall longer, acts | Recording(states, actions, longer, acts) ensures IdsUnique(longer) {
        SafeStaysUnique(states, actions, longer, acts);
      }
    } else {
      var longer, acts := UnsafeBreaks(states, actions);
    }
  }
}
