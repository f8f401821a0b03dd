/** What the resolver-driven merge keeps, for any resolver and for each built-in one. */
module MergeLaws {
  import opened Content
  import opened PathOps
  import opened Conflicts

  // ---------- any resolver ----------

  /** The conflicts whose incoming operation was not stored. */
  function Dropped(rs: seq<ResolvedConflict>): nat {
    if rs == [] then 0 else
    var r := rs[|rs| - 1].resolution;
    Dropped(rs[..|rs| - 1]) + if r.UseBase? || r.SkipBoth? then 1 else 0
  }

  /** What one incoming operation does to the operations held: nothing, or it is stored, perhaps at another path. */
  lemma AbsorbShape(m: Merging, id: OpId, op: PathOperation, resolver: Resolver, peer: PublicKey)
    requires id !in m.log.ops
    ensures var m' := Absorb(m, id, op, resolver, peer);
            && m'.log.clock == Tick(m.log.clock, id)
            && (m'.log.ops == m.log.ops || exists p :: m'.log.ops == m.log.ops[id := op.(path := p)])
  {
    assert op == op.(path := op.path);
  }

  lemma DroppedOneMore(rs: seq<ResolvedConflict>, r: ResolvedConflict)
    ensures Dropped(rs + [r]) == Dropped(rs) + if r.resolution.UseBase? || r.resolution.SkipBoth? then 1 else 0
  {
    assert (rs + [r])[..|rs|] == rs;
  }

  /** What one incoming operation does to the report. */
  lemma AbsorbCounts(m: Merging, id: OpId, op: PathOperation, resolver: Resolver, peer: PublicKey)
    requires id !in m.log.ops
    ensures var m' := Absorb(m, id, op, resolver, peer);
            && |m'.log.ops| - |m.log.ops| == m'.result.added - m.result.added
            && m'.result.added + Dropped(m'.result.resolved) == m.result.added + Dropped(m.result.resolved) + 1
            && |m'.result.resolved| + |m'.result.unresolved|
               == |m.result.resolved| + |m.result.unresolved| + if FirstConflict(m.log.ops, op).Some? then 1 else 0
  {
    var base := FirstConflict(m.log.ops, op);
    if base.Some? {
      var c := Conflict(op.path, base.value, op);
      DroppedOneMore(m.result.resolved, ResolvedConflict(c, resolver(c, peer)));
    }
  }

  lemma {:induction false} HeldStays(l: Log, other: Ops, ids: set<OpId>, resolver: Resolver, peer: PublicKey)
    requires ids <= other.Keys
    ensures var m := AbsorbIds(Merging(l, NO_CONFLICTS), other, ids, resolver, peer).log;
            && Extends(l.ops, m.ops) && m.ops.Keys <= l.ops.Keys + ids
            && (Keyed(l.ops) && Keyed(other) ==> Keyed(m.ops))
            && m.clock == MergeIds(l, other, ids).clock
  {
    if ids != {} {
      var last := Greatest(ids);
      HeldStays(l, other, ids - {last}, resolver, peer);
      MergeIdsIsUnion(l, other, ids - {last});
      if last !in l.ops {
        var before := AbsorbIds(Merging(l, NO_CONFLICTS), other, ids - {last}, resolver, peer);
        AbsorbShape(before, last, other[last], resolver, peer);
      }
    }
  }

  /** The incoming operations that are new and meet no conflict when their turn comes. */
  function FreeAdditions(l: Log, other: Ops, ids: set<OpId>, resolver: Resolver, peer: PublicKey): nat
    requires ids <= other.Keys
  {
    if ids == {} then 0 else
    var last := Greatest(ids);
    var before := AbsorbIds(Merging(l, NO_CONFLICTS), other, ids - {last}, resolver, peer).log.ops;
    FreeAdditions(l, other, ids - {last}, resolver, peer)
    + if last !in before && FirstConflict(before, other[last]).None? then 1 else 0
  }

  lemma OneMoreId(ids: set<OpId>, held: set<OpId>, last: OpId)
    requires last in ids
    ensures |ids - held| == |(ids - {last}) - held| + if last in held then 0 else 1
  {
    assert ids - held == ((ids - {last}) - held) + if last in held then {} else {last};
  }

  lemma {:induction false} ReportAddsUp(l: Log, other: Ops, ids: set<OpId>, resolver: Resolver, peer: PublicKey)
    requires ids <= other.Keys
    ensures var m := AbsorbIds(Merging(l, NO_CONFLICTS), other, ids, resolver, peer);
            && |m.log.ops| == |l.ops| + m.result.added
            && |ids - l.ops.Keys| == m.result.added + Dropped(m.result.resolved)
            && |ids - l.ops.Keys|
               == FreeAdditions(l, other, ids, resolver, peer) + |m.result.resolved| + |m.result.unresolved|
  {
    if ids != {} {
      var last := Greatest(ids);
      var front := ids - {last};
      ReportAddsUp(l, other, front, resolver, peer);
      HeldStays(l, other, front, resolver, peer);
      OneMoreId(ids, l.ops.Keys, last);
      if last !in l.ops {
        var before := AbsorbIds(Merging(l, NO_CONFLICTS), other, front, resolver, peer);
        AbsorbCounts(before, last, other[last], resolver, peer);
      }
    }
  }

  /** For every resolver: nothing held is changed, and the size grows by the number reported. Every incoming operation
      that was not held is either stored or reported as dropped, and either met no conflict or is reported as one. The
      clock is the one the plain merge would set, and the next local id exceeds every id of both logs, those that were
      dropped included. */
  lemma AnyResolver(l: Log, other: Ops, resolver: Resolver, peer: PublicKey)
    ensures var m := MergeWith(l, other, resolver, peer);
            && Extends(l.ops, m.log.ops)
            && m.log.ops.Keys <= l.ops.Keys + other.Keys
            && (Keyed(l.ops) && Keyed(other) ==> Keyed(m.log.ops))
            && |m.log.ops| == |l.ops| + m.result.added
            && |other.Keys - l.ops.Keys| == m.result.added + Dropped(m.result.resolved)
            && |other.Keys - l.ops.Keys|
               == FreeAdditions(l, other, other.Keys, resolver, peer) + |m.result.resolved| + |m.result.unresolved|
            && m.log.clock == Merge(l, other).clock
    ensures var m := MergeWith(l, other, resolver, peer).log;
            ClockCovers(l) ==>
              ClockCovers(m) && forall id :: id in l.ops || id in other ==> Less(id, NextId(m, peer))
  {
    HeldStays(l, other, other.Keys, resolver, peer);
    ReportAddsUp(l, other, other.Keys, resolver, peer);
    MergeIsUnion(l, other);
  }

  // ---------- ForkOnConflict ----------

  lemma {:induction false} ForkIds(m: Merging, other: Ops, ids: set<OpId>, peer: PublicKey)
    requires ids <= other.Keys
    ensures AbsorbIds(m, other, ids, ForkOnConflict, peer).log == MergeIds(m.log, other, ids)
    ensures AbsorbIds(m, other, ids, ForkOnConflict, peer).result.resolved == m.result.resolved
  {
    if ids != {} {
      ForkIds(m, other, ids - {Greatest(ids)}, peer);
    }
  }

  /** Keeping both sides of every conflict is the plain merge, clock included, and leaves every conflict unresolved. */
  lemma ForkIsPlainMerge(l: Log, other: Ops, peer: PublicKey)
    ensures MergeWith(l, other, ForkOnConflict, peer).log == Merge(l, other)
    ensures MergeWith(l, other, ForkOnConflict, peer).result.resolved == []
  {
    ForkIds(Merging(l, NO_CONFLICTS), other, other.Keys, peer);
  }

  // ---------- LastWriteWins ----------

  /** `few` is part of `all`, and every operation of `all` is matched or exceeded at its path by one of `few`. */
  ghost predicate Dominates(few: Ops, all: Ops) {
    && (forall id :: id in few ==> id in all && few[id] == all[id])
    && (forall id :: id in all ==> Covered(few, id, all[id].path))
  }

  ghost predicate Covers(few: Ops, top: OpId, id: OpId, path: Path) {
    top in few && few[top].path == path && AtMost(id, top)
  }

  ghost predicate Covered(few: Ops, id: OpId, path: Path) {
    exists top :: Covers(few, top, id, path)
  }

  lemma DominatesSameWinner(few: Ops, all: Ops, p: Path)
    requires Dominates(few, all)
    ensures Winner(few, p) == Winner(all, p)
  {
    var ids := IdsAt(few, p);
    forall id | id in IdsAt(all, p) ensures ids != {} && AtMost(id, Greatest(ids)) {
      var top :| Covers(few, top, id, all[id].path);
      assert top in ids;
    }
    if ids != {} {
      WinnerIs(all, p, Greatest(ids));
    }
  }

  /** An operation stored on both sides, or dropped on the left because it is exceeded there, stays covered. */
  lemma CoverageStep(few: Ops, few': Ops, all: Log, id: OpId, op: PathOperation)
    requires Dominates(few, all.ops)
    requires id in all.ops && id !in few ==> all.ops[id] == op
    requires if few' == few then id in few || Covered(few, id, op.path) else id !in few && few' == few[id := op]
    ensures Dominates(few', MergeOne(all, id, op).ops)
  {
    var all' := MergeOne(all, id, op).ops;
    forall x | x in all' ensures Covered(few', x, all'[x].path) {
      if x in all.ops {
        assert Covered(few, x, all.ops[x].path);
        var top :| Covers(few, top, x, all.ops[x].path);
        assert Covers(few', top, x, all'[x].path);
      } else if few' != few {
        assert Covers(few', id, x, all'[x].path);
      }
    }
  }

  lemma LastWriteShape(m: Merging, id: OpId, op: PathOperation, peer: PublicKey)
    requires Keyed(m.log.ops) && op.id == id && id !in m.log.ops
    ensures var few' := Absorb(m, id, op, LastWriteWins, peer).log.ops;
            few' == m.log.ops[id := op] || (few' == m.log.ops && Covered(m.log.ops, id, op.path))
  {
    var ids := ConflictIds(m.log.ops, op);
    if ids != {} {
      var b := Least(ids);
      if !Less(b, id) {
        assert Covers(m.log.ops, b, id, op.path);
      }
    }
  }

  lemma {:induction false} LastWriteIds(m: Merging, all: Log, other: Ops, ids: set<OpId>, peer: PublicKey)
    requires Keyed(m.log.ops) && Keyed(other) && ids <= other.Keys
    requires Dominates(m.log.ops, all.ops)
    requires forall id :: id in ids && id in all.ops && id !in m.log.ops ==> all.ops[id] == other[id]
    ensures var m' := AbsorbIds(m, other, ids, LastWriteWins, peer).log.ops;
            Keyed(m') && Extends(m.log.ops, m') && Dominates(m', MergeIds(all, other, ids).ops)
  {
    if ids != {} {
      var last := Greatest(ids);
      LastWriteIds(m, all, other, ids - {last}, peer);
      MergeIdsIsUnion(all, other, ids - {last});
      var before := AbsorbIds(m, other, ids - {last}, LastWriteWins, peer);
      var after := AbsorbIds(m, other, ids, LastWriteWins, peer);
      if last !in before.log.ops {
        LastWriteShape(before, last, other[last], peer);
      }
      CoverageStep(before.log.ops, after.log.ops, MergeIds(all, other, ids - {last}), last, other[last]);
    }
  }

  /** Last-write-wins drops operations and loses nothing visible: the state it shows is the state the plain merge
      shows, for all logs, also when they disagree on a shared id. */
  lemma LastWriteLosesNothingVisible(l: Log, other: Ops, peer: PublicKey)
    requires Keyed(l.ops) && Keyed(other)
    ensures ResolveAll(MergeWith(l, other, LastWriteWins, peer).log.ops) == ResolveAll(Merge(l, other).ops)
  {
    forall id | id in l.ops ensures Covered(l.ops, id, l.ops[id].path) {
      assert Covers(l.ops, id, id, l.ops[id].path);
    }
    LastWriteIds(Merging(l, NO_CONFLICTS), l, other, other.Keys, peer);
    SameState(MergeWith(l, other, LastWriteWins, peer).log.ops, Merge(l, other).ops);
  }

  lemma SameState(few: Ops, all: Ops)
    requires Dominates(few, all)
    ensures ResolveAll(few) == ResolveAll(all)
  {
    forall p ensures Winner(few, p) == Winner(all, p) {
      DominatesSameWinner(few, all, p);
    }
    SameWinnersSameState(few, all);
  }

  // ---------- merging many logs ----------

  ghost predicate PairwiseAgree(logs: seq<Log>) {
    forall a, b :: a in logs && b in logs ==> Agree(a.ops, b.ops)
  }

  /** All operations of the logs; the earliest log wins a shared id. */
  function UnionOf(logs: seq<Log>): Ops {
    if logs == [] then map[] else logs[|logs| - 1].ops + UnionOf(logs[..|logs| - 1])
  }

  /** An operation of the union comes from one of the logs. */
  lemma {:induction false} UnionFrom(logs: seq<Log>, id: OpId) returns (l: Log)
    requires id in UnionOf(logs)
    ensures l in logs && id in l.ops
  {
    l := logs[|logs| - 1];
    if id in UnionOf(logs[..|logs| - 1]) {
      l := UnionFrom(logs[..|logs| - 1], id);
    }
  }

  /** An operation of one of the logs is in the union. */
  lemma {:induction false} UnionHas(logs: seq<Log>, l: Log, id: OpId)
    requires PairwiseAgree(logs) && l in logs && id in l.ops
    ensures id in UnionOf(logs) && UnionOf(logs)[id] == l.ops[id]
  {
    var front, last := logs[..|logs| - 1], logs[|logs| - 1];
    assert logs == front + [last];
    if id in UnionOf(front) {
      var f := UnionFrom(front, id);
      assert Agree(f.ops, l.ops);
      UnionHas(front, f, id);
    } else if l in front {
      UnionHas(front, l, id);
    }
  }

  lemma UnionWithin(a: seq<Log>, b: seq<Log>)
    requires PairwiseAgree(a) && PairwiseAgree(b)
    requires forall l :: l in a ==> l in b
    ensures Extends(UnionOf(a), UnionOf(b))
  {
    forall id | id in UnionOf(a) ensures id in UnionOf(b) && UnionOf(b)[id] == UnionOf(a)[id] {
      var l := UnionFrom(a, id);
      UnionHas(a, l, id);
      UnionHas(b, l, id);
    }
  }

  lemma UnionOrderFree(a: seq<Log>, b: seq<Log>)
    requires PairwiseAgree(a) && PairwiseAgree(b)
    requires forall l :: l in a <==> l in b
    ensures UnionOf(a) == UnionOf(b)
  {
    UnionWithin(a, b);
    UnionWithin(b, a);
  }

  lemma {:induction false} MergeLogsDominates(logs: seq<Log>, peer: PublicKey)
    requires PairwiseAgree(logs)
    requires forall l :: l in logs ==> Keyed(l.ops)
    ensures var merged := MergeLogs(logs, LastWriteWins, peer).ops;
            Keyed(merged) && Dominates(merged, UnionOf(logs))
  {
    if |logs| == 1 {
      var u := UnionOf(logs);
      assert UnionOf(logs[..0]) == map[];
      assert u == logs[0].ops;
      forall id | id in u ensures Covered(u, id, u[id].path) {
        assert Covers(u, id, id, u[id].path);
      }
    } else if logs != [] {
      var front, last := logs[..|logs| - 1], logs[|logs| - 1];
      assert logs == front + [last];
      MergeLogsDominates(front, peer);
      var all := Log(UnionOf(front), 0);
      forall id | id in last.ops && id in all.ops ensures all.ops[id] == last.ops[id] {
        var f := UnionFrom(front, id);
        UnionHas(front, f, id);
        assert Agree(f.ops, last.ops);
      }
      LastWriteIds(Merging(MergeLogs(front, LastWriteWins, peer), NO_CONFLICTS), all, last.ops, last.ops.Keys, peer);
      MergeIsUnion(all, last.ops);
    }
  }

  /** Logs that agree on the ids they share show one state however they are listed, repeated or merged. */
  lemma MergeLogsOrderFree(a: seq<Log>, b: seq<Log>, peerA: PublicKey, peerB: PublicKey)
    requires PairwiseAgree(a) && forall l :: l in a ==> Keyed(l.ops)
    requires forall l :: l in a <==> l in b
    ensures ResolveAll(MergeLogs(a, LastWriteWins, peerA).ops) == ResolveAll(MergeLogs(b, LastWriteWins, peerB).ops)
  {
    assert PairwiseAgree(b);
    MergeLogsDominates(a, peerA);
    MergeLogsDominates(b, peerB);
    SameState(MergeLogs(a, LastWriteWins, peerA).ops, UnionOf(a));
    SameState(MergeLogs(b, LastWriteWins, peerB).ops, UnionOf(b));
    UnionOrderFree(a, b);
  }

  /** Keeping both sides of every conflict, merging many logs gives all their operations, the earliest log winning a
      shared id. */
  lemma {:induction false} MergeLogsForks(logs: seq<Log>, peer: PublicKey)
    ensures MergeLogs(logs, ForkOnConflict, peer).ops == UnionOf(logs)
  {
    if |logs| == 1 {
      assert UnionOf(logs[..0]) == map[];
    } else if logs != [] {
      var front, last := logs[..|logs| - 1], logs[|logs| - 1];
      MergeLogsForks(front, peer);
      ForkIsPlainMerge(MergeLogs(front, ForkOnConflict, peer), last.ops, peer);
      MergeIsUnion(MergeLogs(front, ForkOnConflict, peer), last.ops);
    }
  }

  function AddedIn(reports: seq<MergeResult>): nat {
    if reports == [] then 0 else AddedIn(reports[..|reports| - 1]) + reports[|reports| - 1].added
  }

  /** One report for each log after the first, and together they account for every operation that was added. */
  lemma {:induction false} ReportsOfAllLogs(logs: seq<Log>, resolver: Resolver, peer: PublicKey)
    requires logs != []
    ensures var reports := MergeLogsReports(logs, resolver, peer);
            && |reports| == |logs| - 1
            && |MergeLogs(logs, resolver, peer).ops| == |logs[0].ops| + AddedIn(reports)
  {
    if |logs| > 1 {
      var front, last := logs[..|logs| - 1], logs[|logs| - 1];
      ReportsOfAllLogs(front, resolver, peer);
      AnyResolver(MergeLogs(front, resolver, peer), last.ops, resolver, peer);
      var reports := MergeLogsReports(logs, resolver, peer);
      assert reports[..|reports| - 1] == MergeLogsReports(front, resolver, peer);
    }
  }

  // ---------- merging the same log again ----------

  /** Merging this operation again changes nothing: it is held, or it would be dropped; the clock is past it. */
  ghost predicate Settled(m: Log, id: OpId, op: PathOperation, resolver: Resolver, peer: PublicKey) {
    id in m.ops ||
    (id.timestamp < m.clock && FirstConflict(m.ops, op).Some?
     && resolver(Conflict(op.path, FirstConflict(m.ops, op).value, op), peer).UseBase?)
  }

  lemma {:induction false} SettledAddsNothing(m: Log, other: Ops, ids: set<OpId>, resolver: Resolver, peer: PublicKey)
    requires ids <= other.Keys && forall id :: id in ids ==> Settled(m, id, other[id], resolver, peer)
    ensures var again := AbsorbIds(Merging(m, NO_CONFLICTS), other, ids, resolver, peer);
            again.log == m && again.result.added == 0
  {
    if ids != {} {
      SettledAddsNothing(m, other, ids - {Greatest(ids)}, resolver, peer);
    }
  }

  /** A dropped operation keeps a conflict in the log, and `low` says that every such conflict exceeds it. */
  ghost predicate DropJustified(ops: Ops, id: OpId, op: PathOperation, low: bool) {
    && ConflictIds(ops, op) != {}
    && (low ==> forall x :: x in ops && OperationsConflict(ops[x], op) ==> Less(id, x))
  }

  /** Storing an operation with a greater id justifies every drop that was justified. */
  lemma DropStays(ops: Ops, id: OpId, op: PathOperation, low: bool, last: OpId, added: PathOperation)
    requires DropJustified(ops, id, op, low) && last !in ops && Less(id, last)
    ensures DropJustified(ops[last := added], id, op, low)
  {
    var x :| x in ConflictIds(ops, op);
    assert x in ConflictIds(ops[last := added], op);
  }

  lemma DropNew(m: Merging, id: OpId, op: PathOperation, low: bool, peer: PublicKey)
    requires Keyed(m.log.ops) && op.id == id && id !in m.log.ops
    ensures var ops' := Absorb(m, id, op, if low then LastWriteWins else BaseWins, peer).log.ops;
            ops' == m.log.ops[id := op] || (ops' == m.log.ops && DropJustified(ops', id, op, low))
  {
    var ids := ConflictIds(m.log.ops, op);
    assert forall x :: x in m.log.ops && OperationsConflict(m.log.ops[x], op) ==> x in ids;
  }

  lemma {:induction false} DropsJustified(l: Log, other: Ops, ids: set<OpId>, low: bool, peer: PublicKey)
    requires Keyed(l.ops) && Keyed(other) && ids <= other.Keys
    ensures var ops := AbsorbIds(Merging(l, NO_CONFLICTS), other, ids, if low then LastWriteWins else BaseWins,
                                 peer).log.ops;
            Keyed(ops) && forall id :: id in ids && id !in ops ==> DropJustified(ops, id, other[id], low)
  {
    if ids != {} {
      var last, r: Resolver := Greatest(ids), if low then LastWriteWins else BaseWins;
      DropsJustified(l, other, ids - {last}, low, peer);
      var m := AbsorbIds(Merging(l, NO_CONFLICTS), other, ids - {last}, r, peer);
      if last !in m.log.ops {
        DropNew(m, last, other[last], low, peer);
        forall id | id in ids - {last} && id !in m.log.ops
          ensures DropJustified(m.log.ops[last := other[last]], id, other[id], low)
        {
          DropStays(m.log.ops, id, other[id], low, last, other[last]);
        }
      }
    }
  }

  lemma JustifiedSettles(m: Log, id: OpId, op: PathOperation, low: bool, peer: PublicKey)
    requires Keyed(m.ops) && op.id == id && id.timestamp < m.clock && DropJustified(m.ops, id, op, low)
    ensures Settled(m, id, op, if low then LastWriteWins else BaseWins, peer)
  {
    assert Least(ConflictIds(m.ops, op)) in m.ops;
  }

  lemma RemergeOf(l: Log, other: Ops, low: bool, peer: PublicKey)
    requires Keyed(l.ops) && Keyed(other)
    ensures var r: Resolver := if low then LastWriteWins else BaseWins;
            var m := MergeWith(l, other, r, peer).log;
            MergeWith(m, other, r, peer).log == m && MergeWith(m, other, r, peer).result.added == 0
  {
    var r: Resolver := if low then LastWriteWins else BaseWins;
    var m := MergeWith(l, other, r, peer).log;
    DropsJustified(l, other, other.Keys, low, peer);
    AnyResolver(l, other, r, peer);
    MergeIsUnion(l, other);
    forall id | id in other ensures Settled(m, id, other[id], r, peer) {
      if id !in m.ops {
        JustifiedSettles(m, id, other[id], low, peer);
      }
    }
    SettledAddsNothing(m, other, other.Keys, r, peer);
  }

  /** Merging the same log again adds nothing and leaves log and clock as they are. */
  lemma RemergeAddsNothing(l: Log, other: Ops, peer: PublicKey)
    requires Keyed(l.ops) && Keyed(other)
    ensures forall r: Resolver :: r == LastWriteWins || r == BaseWins || r == ForkOnConflict ==>
              var m := MergeWith(l, other, r, peer).log;
              MergeWith(m, other, r, peer).log == m && MergeWith(m, other, r, peer).result.added == 0
  {
    RemergeOf(l, other, true, peer);
    RemergeOf(l, other, false, peer);
    ForkIsPlainMerge(l, other, peer);
    MergeIsUnion(l, other);
    SettledAddsNothing(Merge(l, other), other, other.Keys, ForkOnConflict, peer);
  }

  // ---------- BaseWins ----------

  lemma {:induction false} BaseWinsIds(l: Log, other: Ops, ids: set<OpId>, peer: PublicKey)
    requires ids <= other.Keys
    ensures var ops := AbsorbIds(Merging(l, NO_CONFLICTS), other, ids, BaseWins, peer).log.ops;
            && Extends(l.ops, ops)
            && forall x, y :: x in ops && y in ops && OperationsConflict(ops[x], ops[y]) ==> x in l.ops && y in l.ops
  {
    if ids != {} {
      var last := Greatest(ids);
      BaseWinsIds(l, other, ids - {last}, peer);
      var m := AbsorbIds(Merging(l, NO_CONFLICTS), other, ids - {last}, BaseWins, peer);
      BaseWinsStep(m, last, other[last], peer);
    }
  }

  /** An operation is stored only if it conflicts with nothing that is held. */
  lemma BaseWinsStep(m: Merging, id: OpId, op: PathOperation, peer: PublicKey)
    ensures var ops, ops' := m.log.ops, Absorb(m, id, op, BaseWins, peer).log.ops;
            || ops' == ops
            || (id !in ops && ops' == ops[id := op] && forall x :: x in ops ==> !OperationsConflict(ops[x], op))
  {
    var ops := m.log.ops;
    assert forall x :: x in ops && OperationsConflict(ops[x], op) ==> x in ConflictIds(ops, op);
  }

  /** Base-wins introduces no conflict: a pair that conflicts afterwards is a pair of local operations, unchanged,
      which conflicted before. */
  lemma BaseWinsAddsNoConflict(l: Log, other: Ops, peer: PublicKey, x: OpId, y: OpId)
    requires var ops := MergeWith(l, other, BaseWins, peer).log.ops;
             x in ops && y in ops && OperationsConflict(ops[x], ops[y])
    ensures var ops := MergeWith(l, other, BaseWins, peer).log.ops;
            && x in l.ops && y in l.ops && l.ops[x] == ops[x] && l.ops[y] == ops[y]
            && OperationsConflict(l.ops[x], l.ops[y])
  {
    BaseWinsIds(l, other, other.Keys, peer);
  }
}
