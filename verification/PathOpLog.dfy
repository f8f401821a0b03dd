/** The operation log as the object a mount updates in place. Each method is proved against the log as a value. */
module PathOpLogs {
  import opened Content
  import opened PathOps
  import opened Conflicts

  ghost predicate Below(done: set<OpId>, rest: set<OpId>) {
    forall x, y :: x in done && y in rest ==> Less(x, y)
  }

  class PathOpLog {
    var operations: Ops
    var localClock: nat

    ghost function Value(): Log
      reads this
    {
      Log(operations, localClock)
    }

    constructor ()
      ensures Value() == EMPTY_LOG
    {
      operations := map[];
      localClock := 0;
    }

    constructor FromValue(l: Log)
      ensures Value() == l
    {
      operations := l.ops;
      localClock := l.clock;
    }

    method RebuildClock()
      modifies this
      ensures Value() == Rebuilt(old(operations)) && operations == old(operations)
      ensures ClockIsGreatest(Value())
    {
      var max, rest := 0, operations.Keys;
      while rest != {}
        invariant rest <= operations.Keys
        invariant forall id :: id in operations && id !in rest ==> id.timestamp <= max
        invariant max == 0 || exists id :: id in operations && id.timestamp == max
        decreases rest
      {
        var id := Least(rest);
        if id.timestamp > max {
          max := id.timestamp;
        }
        rest := rest - {id};
      }
      localClock := max;
    }

    method RecordOperation(peer: PublicKey, opType: OpType, path: Path, link: Option<Link>, isDir: bool)
      returns (id: OpId)
      modifies this
      ensures Value() == Record(old(Value()), peer, opType, path, link, isDir)
      ensures id == NextId(old(Value()), peer)
    {
      localClock := localClock + 1;
      id := OpId(localClock, peer);
      operations := operations[id := PathOperation(id, opType, path, link, isDir)];
    }

    method MergeLog(other: PathOpLog) returns (added: nat)
      requires other != this
      modifies this
      ensures Value() == Merge(old(Value()), other.operations)
      ensures added == |other.operations.Keys - old(operations).Keys|
    {
      added := 0;
      var rest := other.operations.Keys;
      ghost var done: set<OpId> := {};
      while rest != {}
        invariant done + rest == other.operations.Keys && done !! rest
        invariant Below(done, rest)
        invariant Value() == MergeIds(old(Value()), other.operations, done)
        invariant |operations| == |old(operations)| + added
        decreases rest
      {
        var id := Least(rest);
        NextIsGreatest(done, id);
        var isNew := StoreNew(id, other.operations[id]);
        if isNew {
          added := added + 1;
        }
        rest, done := rest - {id}, done + {id};
      }
      assert done == other.operations.Keys;
      MergeSize(old(Value()), other.operations);
    }

    /** The body of the loop over the other log's operations. */
    method StoreNew(id: OpId, op: PathOperation) returns (isNew: bool)
      modifies this
      ensures Value() == MergeOne(old(Value()), id, op)
      ensures |operations| == |old(operations)| + if isNew then 1 else 0
    {
      isNew := id !in operations;
      if isNew {
        operations := operations[id := op];
        if id.timestamp >= localClock {
          localClock := id.timestamp + 1;
        }
      }
    }

    method MergeWithResolver(other: PathOpLog, resolver: Resolver, localPeer: PublicKey) returns (result: MergeResult)
      requires other != this
      modifies this
      ensures Merging(Value(), result) == MergeWith(old(Value()), other.operations, resolver, localPeer)
    {
      result := NO_CONFLICTS;
      var rest := other.operations.Keys;
      ghost var done: set<OpId> := {};
      while rest != {}
        invariant done + rest == other.operations.Keys && done !! rest
        invariant Below(done, rest)
        invariant Merging(Value(), result)
                  == AbsorbIds(Merging(old(Value()), NO_CONFLICTS), other.operations, done, resolver, localPeer)
        decreases rest
      {
        var id := Least(rest);
        NextIsGreatest(done, id);
        result := AbsorbOne(id, other.operations[id], resolver, localPeer, result);
        rest, done := rest - {id}, done + {id};
      }
      assert done == other.operations.Keys;
    }

    /** The body of the loop over incoming operations. */
    method AbsorbOne(id: OpId, op: PathOperation, resolver: Resolver, localPeer: PublicKey, soFar: MergeResult)
      returns (result: MergeResult)
      modifies this
      ensures Merging(Value(), result) == Absorb(Merging(old(Value()), soFar), id, op, resolver, localPeer)
    {
      result := soFar;
      if id in operations {
        return;
      }
      if id.timestamp >= localClock {
        localClock := id.timestamp + 1;
      }
      match FirstConflict(operations, op) {
        case None =>
          operations := operations[id := op];
          result := result.(added := result.added + 1);
        case Some(base) =>
          var conflict := Conflict(op.path, base, op);
          var resolution := resolver(conflict, localPeer);
          match resolution {
            case UseBase =>
              result := result.(resolved := result.resolved + [ResolvedConflict(conflict, resolution)]);
            case UseIncoming =>
              operations := operations[id := op];
              result := result.(added := result.added + 1,
                                resolved := result.resolved + [ResolvedConflict(conflict, resolution)]);
            case KeepBoth =>
              operations := operations[id := op];
              result := result.(added := result.added + 1, unresolved := result.unresolved + [conflict]);
            case SkipBoth =>
              result := result.(resolved := result.resolved + [ResolvedConflict(conflict, resolution)]);
            case RenameIncoming(newPath) =>
              operations := operations[id := op.(path := newPath)];
              result := result.(added := result.added + 1,
                                resolved := result.resolved + [ResolvedConflict(conflict, resolution)]);
          }
      }
    }

    method ClearPreservingClock()
      modifies this
      ensures Value() == Cleared(old(Value()))
    {
      operations := map[];
    }

    /** Groups the operations by path and keeps the winner of each group, unless it is a removal. */
    method ResolveState() returns (state: map<Path, PathOperation>)
      requires Keyed(operations)
      ensures state == ResolveAll(operations)
      ensures forall p :: p in state <==> exists id :: IsNewest(operations, p, id) && !operations[id].opType.Remove?
      ensures forall p, id :: p in state && IsNewest(operations, p, id) ==> state[p] == operations[id]
    {
      var byPath := GroupByPath(operations);
      state := WinnersOf(operations, byPath);
      Resolves(operations);
    }
  }

  /** The winner of each group, unless it is a removal. */
  method WinnersOf(ops: Ops, byPath: map<Path, seq<PathOperation>>) returns (state: map<Path, PathOperation>)
    requires Keyed(ops) && Grouped(ops, ops.Keys, byPath)
    ensures state == ResolveAll(ops)
  {
    state := map[];
    var rest := byPath.Keys;
    while rest != {}
      invariant rest <= byPath.Keys
      invariant state.Keys <= byPath.Keys - rest
      invariant forall p :: p in byPath && p !in rest ==> (p in state <==> p in ResolveAll(ops))
      invariant forall p :: p in state ==> Winner(ops, p) == Some(state[p])
      decreases rest
    {
      var path :| path in rest;
      var winner := Newest(byPath[path]);
      GroupWinner(ops, byPath, path, winner);
      PathListed(ops, path);
      if !winner.opType.Remove? {
        state := state[path := winner];
      }
      rest := rest - {path};
    }
    forall p | p in ResolveAll(ops) ensures p in byPath {
      assert Greatest(IdsAt(ops, p)) in ops;
    }
  }

  lemma GroupWinner(ops: Ops, byPath: map<Path, seq<PathOperation>>, path: Path, winner: PathOperation)
    requires Keyed(ops) && Grouped(ops, ops.Keys, byPath) && path in byPath && winner in byPath[path]
    requires forall op :: op in byPath[path] ==> AtMost(op.id, winner.id)
    ensures Winner(ops, path) == Some(winner)
  {
    assert winner.id in IdsAt(ops, path);
    assert forall id :: id in IdsAt(ops, path) ==> ops[id] in byPath[path];
    WinnerIs(ops, path, winner.id);
  }

  lemma Resolves(ops: Ops)
    ensures forall p :: p in ResolveAll(ops) <==> exists id :: IsNewest(ops, p, id) && !ops[id].opType.Remove?
    ensures forall p, id :: p in ResolveAll(ops) && IsNewest(ops, p, id) ==> ResolveAll(ops)[p] == ops[id]
  {
    forall p
      ensures p in ResolveAll(ops) <==> exists id :: IsNewest(ops, p, id) && !ops[id].opType.Remove?
      ensures forall id :: p in ResolveAll(ops) && IsNewest(ops, p, id) ==> ResolveAll(ops)[p] == ops[id]
    {
      ResolvesExactly(ops, p);
    }
  }

  /** In ascending order of their ids. */
  ghost predicate Ascending(ops: seq<PathOperation>) {
    forall i, j :: 0 <= i < j < |ops| ==> Less(ops[i].id, ops[j].id)
  }

  lemma AscendingMore(ops: seq<PathOperation>, op: PathOperation)
    requires Ascending(ops) && forall x :: x in ops ==> Less(x.id, op.id)
    ensures Ascending(ops + [op])
  {}

  /** The given operations, each in the group of its path, in ascending order. */
  ghost predicate Grouped(ops: Ops, done: set<OpId>, byPath: map<Path, seq<PathOperation>>)
    requires done <= ops.Keys
  {
    && (forall id :: id in done ==> ops[id].path in byPath && ops[id] in byPath[ops[id].path])
    && (forall p :: p in byPath ==> byPath[p] != [] && Ascending(byPath[p]))
    && (forall p, op :: p in byPath && op in byPath[p] ==> op.path == p && op.id in done && ops[op.id] == op)
  }

  function GroupOf(byPath: map<Path, seq<PathOperation>>, p: Path): seq<PathOperation> {
    if p in byPath then byPath[p] else []
  }

  lemma GroupedMore(ops: Ops, done: set<OpId>, byPath: map<Path, seq<PathOperation>>, id: OpId)
    requires Keyed(ops) && done <= ops.Keys && id in ops && Grouped(ops, done, byPath)
    requires forall x :: x in done ==> Less(x, id)
    ensures var op := ops[id]; Grouped(ops, done + {id}, byPath[op.path := GroupOf(byPath, op.path) + [op]])
  {
    AscendingMore(GroupOf(byPath, ops[id].path), ops[id]);
  }

  /** The operations at each path, in ascending order. */
  method GroupByPath(ops: Ops) returns (byPath: map<Path, seq<PathOperation>>)
    requires Keyed(ops)
    ensures Grouped(ops, ops.Keys, byPath)
  {
    byPath := map[];
    var rest := ops.Keys;
    while rest != {}
      invariant rest <= ops.Keys
      invariant Below(ops.Keys - rest, rest)
      invariant Grouped(ops, ops.Keys - rest, byPath)
      decreases rest
    {
      var id := Least(rest);
      var op := ops[id];
      GroupedMore(ops, ops.Keys - rest, byPath, id);
      assert ops.Keys - (rest - {id}) == (ops.Keys - rest) + {id};
      byPath := byPath[op.path := (if op.path in byPath then byPath[op.path] else []) + [op]];
      rest := rest - {id};
    }
    assert ops.Keys - rest == ops.Keys;
  }

  /** The operation with the greatest id. */
  method Newest(ops: seq<PathOperation>) returns (winner: PathOperation)
    requires ops != []
    ensures winner in ops && forall op :: op in ops ==> AtMost(op.id, winner.id)
  {
    winner := ops[0];
    for i := 1 to |ops|
      invariant winner in ops && forall op :: op in ops[..i] ==> AtMost(op.id, winner.id)
    {
      if AtMost(winner.id, ops[i].id) {
        winner := ops[i];
      }
      assert ops[..i + 1] == ops[..i] + [ops[i]];
    }
  }

  /** Merges all logs into a copy of the first. */
  method MergeAllLogs(logs: seq<Log>, resolver: Resolver, localPeer: PublicKey)
    returns (merged: PathOpLog, results: seq<MergeResult>)
    ensures fresh(merged)
    ensures merged.Value() == MergeLogs(logs, resolver, localPeer)
    ensures results == MergeLogsReports(logs, resolver, localPeer)
  {
    merged := new PathOpLog();
    results := [];
    if |logs| > 0 {
      merged := new PathOpLog.FromValue(logs[0]);
      assert logs[..1] == [logs[0]];
      for k := 1 to |logs|
        invariant fresh(merged)
        invariant merged.Value() == MergeLogs(logs[..k], resolver, localPeer)
        invariant results == MergeLogsReports(logs[..k], resolver, localPeer)
      {
        MergeLogsStep(logs, k, resolver, localPeer);
        var next := new PathOpLog.FromValue(logs[k]);
        var result := merged.MergeWithResolver(next, resolver, localPeer);
        results := results + [result];
      }
      assert logs[..|logs|] == logs;
    }
  }

  lemma MergeLogsStep(values: seq<Log>, k: nat, resolver: Resolver, localPeer: PublicKey)
    requires 0 < k < |values|
    ensures var m := MergeWith(MergeLogs(values[..k], resolver, localPeer), values[k].ops, resolver, localPeer);
            && MergeLogs(values[..k + 1], resolver, localPeer) == m.log
            && MergeLogsReports(values[..k + 1], resolver, localPeer)
               == MergeLogsReports(values[..k], resolver, localPeer) + [m.result]
  {
    assert values[..k + 1][..k] == values[..k];
  }
}
