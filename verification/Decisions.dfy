/** What the resolver-driven merge does with every single incoming operation, by the types of the operations. */
module Decisions {
  import opened Content
  import opened PathOps
  import opened Conflicts
  import opened MergeLaws
  import opened ConflictFiles

  // ---------- conflicts by type ----------

  /** An operation that only brings something into being. */
  predicate Creates(opType: OpType) {
    opType.Add? || opType.Mkdir?
  }

  /** Different operations at one path always conflict, unless both only create and one of them makes a directory. */
  lemma ConflictsByType(a: PathOperation, b: PathOperation)
    ensures OperationsConflict(a, b) <==>
            && a.id != b.id && a.path == b.path
            && !(Creates(a.opType) && Creates(b.opType) && (a.opType.Mkdir? || b.opType.Mkdir?))
  {}

  /** What an incoming operation clashes with: operations at its path that are local or have a lower id, where either
      one removes or moves, or both add. */
  ghost function Clashes(l: Ops, merged: Ops, op: PathOperation): set<OpId> {
    set x | && x in merged && (x in l || Less(x, op.id)) && x != op.id && merged[x].path == op.path
            && (|| merged[x].opType.Remove? || merged[x].opType.Mv? || op.opType.Remove? || op.opType.Mv?
                || (merged[x].opType.Add? && op.opType.Add?))
  }

  /** The clash that counts is the one with the lowest id. */
  ghost function ClashOf(l: Ops, merged: Ops, op: PathOperation): Conflict
    requires Clashes(l, merged, op) != {}
  {
    Conflict(op.path, merged[Least(Clashes(l, merged, op))], op)
  }

  lemma ClashesAreConflicts(l: Ops, held: Ops, op: PathOperation)
    requires Keyed(held) && op.id !in held && forall x :: x in held ==> x in l || Less(x, op.id)
    ensures ConflictIds(held, op) == Clashes(l, held, op)
  {
    forall x | x in held ensures x in ConflictIds(held, op) <==> x in Clashes(l, held, op) {
      ConflictsByType(held[x], op);
    }
  }

  // ---------- the outcome of one operation ----------

  /** Without a clash the operation is stored as it is; otherwise the resolver decides on the lowest clash. */
  ghost predicate Outcome(l: Ops, merged: Ops, op: PathOperation, resolver: Resolver, peer: PublicKey) {
    if Clashes(l, merged, op) == {} then op.id in merged && merged[op.id] == op else
    match resolver(ClashOf(l, merged, op), peer)
    case UseBase => op.id !in merged
    case SkipBoth => op.id !in merged
    case UseIncoming => op.id in merged && merged[op.id] == op
    case KeepBoth => op.id in merged && merged[op.id] == op
    case RenameIncoming(newPath) => op.id in merged && merged[op.id] == op.(path := newPath)
  }

  /** Storing an operation with a greater id changes no earlier clash. */
  lemma ClashesStay(l: Ops, merged: Ops, op: PathOperation, last: OpId, added: PathOperation)
    requires last !in merged && last !in l && Less(op.id, last)
    ensures Clashes(l, merged[last := added], op) == Clashes(l, merged, op)
    ensures Clashes(l, merged, op) != {} ==> ClashOf(l, merged[last := added], op) == ClashOf(l, merged, op)
  {
    var more := merged[last := added];
    assert forall x :: x in Clashes(l, more, op) <==> x in Clashes(l, merged, op);
  }

  lemma OutcomeStays(l: Ops, merged: Ops, op: PathOperation, resolver: Resolver, peer: PublicKey, last: OpId,
                     added: PathOperation)
    requires Outcome(l, merged, op, resolver, peer) && last !in merged && last !in l && Less(op.id, last)
    ensures Outcome(l, merged[last := added], op, resolver, peer)
  {
    ClashesStay(l, merged, op, last, added);
  }

  /** The clashes of an operation do not depend on whether it is stored itself. */
  lemma ClashesWithout(l: Ops, held: Ops, op: PathOperation, stored: PathOperation)
    requires op.id !in held
    ensures Clashes(l, held[op.id := stored], op) == Clashes(l, held, op)
    ensures Clashes(l, held, op) != {} ==> ClashOf(l, held[op.id := stored], op) == ClashOf(l, held, op)
  {
    assert forall x :: x in Clashes(l, held[op.id := stored], op) <==> x in Clashes(l, held, op);
  }

  lemma OutcomeNow(l: Ops, m: Merging, op: PathOperation, resolver: Resolver, peer: PublicKey)
    requires Keyed(m.log.ops) && op.id !in m.log.ops && forall x :: x in m.log.ops ==> x in l || Less(x, op.id)
    ensures Outcome(l, Absorb(m, op.id, op, resolver, peer).log.ops, op, resolver, peer)
  {
    SameClashes(l, m, op, resolver, peer);
  }

  // ---------- the report ----------

  /** What one operation adds to the resolved conflicts: its clash with the decision, unless both sides are kept. */
  ghost function ResolvedBy(l: Ops, merged: Ops, op: PathOperation, resolver: Resolver, peer: PublicKey)
    : seq<ResolvedConflict>
  {
    if Clashes(l, merged, op) == {} then [] else
    var c := ClashOf(l, merged, op);
    if resolver(c, peer).KeepBoth? then [] else [ResolvedConflict(c, resolver(c, peer))]
  }

  /** What it adds to the unresolved ones: its clash, if both sides are kept. */
  ghost function UnresolvedBy(l: Ops, merged: Ops, op: PathOperation, resolver: Resolver, peer: PublicKey)
    : seq<Conflict>
  {
    if Clashes(l, merged, op) == {} then [] else
    var c := ClashOf(l, merged, op);
    if resolver(c, peer).KeepBoth? then [c] else []
  }

  /** What the new operations among the given ids add, in ascending order. */
  ghost function ResolvedOf(l: Ops, merged: Ops, other: Ops, ids: set<OpId>, resolver: Resolver, peer: PublicKey)
    : seq<ResolvedConflict>
    requires ids <= other.Keys
  {
    if ids == {} then [] else
    var last := Greatest(ids);
    ResolvedOf(l, merged, other, ids - {last}, resolver, peer)
    + if last in l then [] else ResolvedBy(l, merged, other[last], resolver, peer)
  }

  ghost function UnresolvedOf(l: Ops, merged: Ops, other: Ops, ids: set<OpId>, resolver: Resolver, peer: PublicKey)
    : seq<Conflict>
    requires ids <= other.Keys
  {
    if ids == {} then [] else
    var last := Greatest(ids);
    UnresolvedOf(l, merged, other, ids - {last}, resolver, peer)
    + if last in l then [] else UnresolvedBy(l, merged, other[last], resolver, peer)
  }

  lemma {:induction false} ReportStays(l: Ops, merged: Ops, other: Ops, ids: set<OpId>, resolver: Resolver,
                                       peer: PublicKey, last: OpId, added: PathOperation)
    requires Keyed(other) && ids <= other.Keys && last !in merged && last !in l
    requires forall x :: x in ids ==> Less(x, last)
    ensures ResolvedOf(l, merged[last := added], other, ids, resolver, peer)
            == ResolvedOf(l, merged, other, ids, resolver, peer)
    ensures UnresolvedOf(l, merged[last := added], other, ids, resolver, peer)
            == UnresolvedOf(l, merged, other, ids, resolver, peer)
  {
    if ids != {} {
      var g := Greatest(ids);
      ReportStays(l, merged, other, ids - {g}, resolver, peer, last, added);
      ClashesStay(l, merged, other[g], last, added);
    }
  }

  /** The clashes of an operation are the same before and after its turn. */
  lemma SameClashes(l: Ops, m: Merging, op: PathOperation, resolver: Resolver, peer: PublicKey)
    requires Keyed(m.log.ops) && op.id !in m.log.ops && forall x :: x in m.log.ops ==> x in l || Less(x, op.id)
    ensures var after := Absorb(m, op.id, op, resolver, peer).log.ops;
            && Clashes(l, after, op) == Clashes(l, m.log.ops, op) == ConflictIds(m.log.ops, op)
            && (Clashes(l, after, op) != {} ==> ClashOf(l, after, op) == ClashOf(l, m.log.ops, op))
  {
    var held, after := m.log.ops, Absorb(m, op.id, op, resolver, peer).log.ops;
    ClashesAreConflicts(l, held, op);
    if op.id in after {
      ClashesWithout(l, held, op, after[op.id]);
      assert after == held[op.id := after[op.id]];
    }
  }

  /** What one operation adds to the report. */
  lemma ReportNow(l: Ops, m: Merging, op: PathOperation, resolver: Resolver, peer: PublicKey)
    requires Keyed(m.log.ops) && op.id !in m.log.ops && forall x :: x in m.log.ops ==> x in l || Less(x, op.id)
    ensures var m' := Absorb(m, op.id, op, resolver, peer);
            && m'.result.resolved == m.result.resolved + ResolvedBy(l, m'.log.ops, op, resolver, peer)
            && m'.result.unresolved == m.result.unresolved + UnresolvedBy(l, m'.log.ops, op, resolver, peer)
  {
    SameClashes(l, m, op, resolver, peer);
  }

  /** The report is true of the ids that are done. */
  ghost predicate Reported(l: Ops, m: Merging, other: Ops, ids: set<OpId>, resolver: Resolver, peer: PublicKey)
    requires ids <= other.Keys
  {
    && m.result.resolved == ResolvedOf(l, m.log.ops, other, ids, resolver, peer)
    && m.result.unresolved == UnresolvedOf(l, m.log.ops, other, ids, resolver, peer)
  }

  lemma ReportedMore(l: Ops, m: Merging, other: Ops, ids: set<OpId>, last: OpId, resolver: Resolver, peer: PublicKey)
    requires Keyed(other) && ids <= other.Keys && ids != {} && last == Greatest(ids) && last !in l
    requires Keyed(m.log.ops) && last !in m.log.ops && forall x :: x in m.log.ops ==> x in l || Less(x, last)
    requires Reported(l, m, other, ids - {last}, resolver, peer)
    ensures Reported(l, Absorb(m, last, other[last], resolver, peer), other, ids, resolver, peer)
  {
    ReportNow(l, m, other[last], resolver, peer);
    EarlierReport(l, m, other, ids - {last}, last, resolver, peer);
  }

  /** What was reported before stays true after one more operation. */
  lemma EarlierReport(l: Ops, m: Merging, other: Ops, ids: set<OpId>, last: OpId, resolver: Resolver, peer: PublicKey)
    requires Keyed(other) && ids <= other.Keys && last in other && last !in m.log.ops && last !in l
    requires forall x :: x in ids ==> Less(x, last)
    ensures var after := Absorb(m, last, other[last], resolver, peer).log.ops;
            && ResolvedOf(l, after, other, ids, resolver, peer) == ResolvedOf(l, m.log.ops, other, ids, resolver, peer)
            && UnresolvedOf(l, after, other, ids, resolver, peer)
               == UnresolvedOf(l, m.log.ops, other, ids, resolver, peer)
  {
    var after := Absorb(m, last, other[last], resolver, peer).log.ops;
    if last in after {
      assert after == m.log.ops[last := after[last]];
      ReportStays(l, m.log.ops, other, ids, resolver, peer, last, after[last]);
    } else {
      assert after == m.log.ops;
    }
  }

  /** The report is exact: the clashes of the new operations in ascending order of their ids, as unresolved if both
      sides were kept and otherwise as resolved, each with its real sides and the decision on it. */
  lemma {:induction false} ReportIsExact(l: Log, other: Ops, ids: set<OpId>, resolver: Resolver, peer: PublicKey)
    requires Keyed(l.ops) && Keyed(other) && ids <= other.Keys
    ensures Reported(l.ops, AbsorbIds(Merging(l, NO_CONFLICTS), other, ids, resolver, peer), other, ids, resolver, peer)
  {
    if ids != {} {
      var last := Greatest(ids);
      ReportIsExact(l, other, ids - {last}, resolver, peer);
      HeldStays(l, other, ids - {last}, resolver, peer);
      if last !in l.ops {
        ReportedMore(l.ops, AbsorbIds(Merging(l, NO_CONFLICTS), other, ids - {last}, resolver, peer), other, ids, last,
                     resolver, peer);
      }
    }
  }

  // ---------- all operations ----------

  /** At every point of the merge: every new operation has its outcome. */
  lemma {:induction false} EveryOutcome(l: Log, other: Ops, ids: set<OpId>, resolver: Resolver, peer: PublicKey)
    requires Keyed(l.ops) && Keyed(other) && ids <= other.Keys
    ensures var ops := AbsorbIds(Merging(l, NO_CONFLICTS), other, ids, resolver, peer).log.ops;
            forall id :: id in ids && id !in l.ops ==> Outcome(l.ops, ops, other[id], resolver, peer)
  {
    if ids != {} {
      var last := Greatest(ids);
      EveryOutcome(l, other, ids - {last}, resolver, peer);
      HeldStays(l, other, ids - {last}, resolver, peer);
      var m := AbsorbIds(Merging(l, NO_CONFLICTS), other, ids - {last}, resolver, peer);
      if last !in l.ops {
        OutcomeNow(l.ops, m, other[last], resolver, peer);
        AbsorbShape(m, last, other[last], resolver, peer);
        var after := Absorb(m, last, other[last], resolver, peer).log.ops;
        EarlierOutcomes(l.ops, m.log.ops, after, other, ids - {last}, last, resolver, peer);
      }
    }
  }

  lemma EarlierOutcomes(l: Ops, merged: Ops, after: Ops, other: Ops, ids: set<OpId>, last: OpId, resolver: Resolver,
                        peer: PublicKey)
    requires Keyed(other) && ids <= other.Keys && last !in merged && last !in l
    requires forall x :: x in ids ==> Less(x, last)
    requires after == merged || (last in after && after == merged[last := after[last]])
    requires forall id :: id in ids && id !in l ==> Outcome(l, merged, other[id], resolver, peer)
    ensures forall id :: id in ids && id !in l ==> Outcome(l, after, other[id], resolver, peer)
  {
    if after != merged {
      forall id | id in ids && id !in l ensures Outcome(l, after, other[id], resolver, peer) {
        OutcomeStays(l, merged, other[id], resolver, peer, last, after[last]);
      }
    }
  }

  /** For every resolver and every incoming operation that was not held: it is stored as it is if nothing clashes with
      it; otherwise the resolver's decision on the lowest clash is carried out. */
  lemma EveryDecisionIsCarriedOut(l: Log, other: Ops, resolver: Resolver, peer: PublicKey, id: OpId)
    requires Keyed(l.ops) && Keyed(other) && id in other && id !in l.ops
    ensures Outcome(l.ops, MergeWith(l, other, resolver, peer).log.ops, other[id], resolver, peer)
  {
    EveryOutcome(l, other, other.Keys, resolver, peer);
  }

  // ---------- each built-in resolver ----------

  /** Base-wins drops an incoming operation exactly when it clashes with one that is local or was stored before it. */
  lemma BaseWinsDrops(l: Log, other: Ops, peer: PublicKey, id: OpId)
    requires Keyed(l.ops) && Keyed(other) && id in other && id !in l.ops
    ensures var ops, op := MergeWith(l, other, BaseWins, peer).log.ops, other[id];
            id !in ops <==>
            exists x :: && x in ops && (x in l.ops || Less(x, id)) && x != id && ops[x].path == op.path
                        && (|| ops[x].opType.Remove? || ops[x].opType.Mv? || op.opType.Remove? || op.opType.Mv?
                            || (ops[x].opType.Add? && op.opType.Add?))
  {
    EveryDecisionIsCarriedOut(l, other, BaseWins, peer, id);
    var ops, op := MergeWith(l, other, BaseWins, peer).log.ops, other[id];
    forall x | x in ops
      ensures x in Clashes(l.ops, ops, op) <==>
              && (x in l.ops || Less(x, id)) && x != id && ops[x].path == op.path
              && (|| ops[x].opType.Remove? || ops[x].opType.Mv? || op.opType.Remove? || op.opType.Mv?
                  || (ops[x].opType.Add? && op.opType.Add?))
    {}
    if Clashes(l.ops, ops, op) != {} {
      var x :| x in Clashes(l.ops, ops, op);
      assert x in ops;
    }
  }

  /** Something that clashes with the operation is older. */
  ghost predicate ClashesWithOlder(l: Ops, merged: Ops, op: PathOperation) {
    exists x :: x in Clashes(l, merged, op) && Less(x, op.id)
  }

  lemma LowestIsOlder(l: Ops, merged: Ops, op: PathOperation)
    requires Clashes(l, merged, op) != {}
    ensures Less(Least(Clashes(l, merged, op)), op.id) <==> ClashesWithOlder(l, merged, op)
  {}

  /** Last-write-wins drops an incoming operation exactly when it clashes, and only with newer ones. */
  lemma LastWriteDrops(l: Log, other: Ops, peer: PublicKey, id: OpId)
    requires Keyed(l.ops) && Keyed(other) && id in other && id !in l.ops
    ensures var ops, op := MergeWith(l, other, LastWriteWins, peer).log.ops, other[id];
            id !in ops <==> Clashes(l.ops, ops, op) != {} && !ClashesWithOlder(l.ops, ops, op)
  {
    EveryDecisionIsCarriedOut(l, other, LastWriteWins, peer, id);
    HeldStays(l, other, other.Keys, LastWriteWins, peer);
    var ops, op := MergeWith(l, other, LastWriteWins, peer).log.ops, other[id];
    if Clashes(l.ops, ops, op) != {} {
      LowestIsOlder(l.ops, ops, op);
    }
  }

  /** The lowest clash is between two additions. */
  ghost predicate AddsClash(l: Ops, merged: Ops, op: PathOperation) {
    Clashes(l, merged, op) != {} && op.opType.Add? && merged[Least(Clashes(l, merged, op))].opType.Add?
  }

  /** The conflict-file strategy, for any logs: an incoming operation is stored under its conflict path exactly when its
      lowest clash is between two additions; otherwise it is stored as it is exactly when it does not clash or clashes
      with an older one, and dropped if not. */
  lemma ConflictFileStores(l: Log, other: Ops, hashLength: nat, hex: Link -> string, peer: PublicKey, id: OpId)
    requires Keyed(l.ops) && Keyed(other) && id in other && id !in l.ops
    ensures var ops, op := MergeWith(l, other, ConflictFileWith(hashLength, hex), peer).log.ops, other[id];
            if AddsClash(l.ops, ops, op) then id in ops && ops[id] == Renamed(hashLength, hex, op)
            else if Clashes(l.ops, ops, op) == {} || ClashesWithOlder(l.ops, ops, op) then id in ops && ops[id] == op
            else id !in ops
  {
    var r := ConflictFileWith(hashLength, hex);
    EveryDecisionIsCarriedOut(l, other, r, peer, id);
    HeldStays(l, other, other.Keys, r, peer);
    var ops, op := MergeWith(l, other, r, peer).log.ops, other[id];
    if Clashes(l.ops, ops, op) != {} {
      LowestIsOlder(l.ops, ops, op);
    }
  }

  // ---------- without competing additions ----------

  predicate CompetingAdds(a: PathOperation, b: PathOperation) {
    a.opType.Add? && b.opType.Add? && a.path == b.path
  }

  /** No incoming addition has the path of another addition, local or incoming. */
  ghost predicate AddsApart(l: Ops, other: Ops) {
    && (forall x, y :: x in l && y in other && CompetingAdds(l[x], other[y]) ==> x == y)
    && (forall x, y :: x in other && y in other && CompetingAdds(other[x], other[y]) ==> x == y)
  }

  /** Every operation is a local or an incoming one, as it was. */
  ghost predicate FromBoth(l: Ops, other: Ops, ops: Ops) {
    forall x :: x in ops ==> (x in l && ops[x] == l[x]) || (x in other && ops[x] == other[x])
  }

  /** Then the strategy decides as last-write-wins does. */
  lemma SameStep(m: Merging, l: Ops, other: Ops, id: OpId, hashLength: nat, hex: Link -> string, peer: PublicKey)
    requires Keyed(l) && Keyed(other) && AddsApart(l, other) && FromBoth(l, other, m.log.ops) && id in other
    ensures Absorb(m, id, other[id], ConflictFileWith(hashLength, hex), peer)
            == Absorb(m, id, other[id], LastWriteWins, peer)
    ensures FromBoth(l, other, Absorb(m, id, other[id], LastWriteWins, peer).log.ops)
  {
    var ids := ConflictIds(m.log.ops, other[id]);
    if ids != {} {
      var b := Least(ids);
      assert b in m.log.ops && OperationsConflict(m.log.ops[b], other[id]);
    }
  }

  lemma {:induction false} SameSteps(l: Log, other: Ops, ids: set<OpId>, hashLength: nat, hex: Link -> string,
                                     peer: PublicKey)
    requires Keyed(l.ops) && Keyed(other) && AddsApart(l.ops, other) && ids <= other.Keys
    ensures var m := AbsorbIds(Merging(l, NO_CONFLICTS), other, ids, LastWriteWins, peer);
            && AbsorbIds(Merging(l, NO_CONFLICTS), other, ids, ConflictFileWith(hashLength, hex), peer) == m
            && FromBoth(l.ops, other, m.log.ops)
  {
    if ids != {} {
      var last := Greatest(ids);
      SameSteps(l, other, ids - {last}, hashLength, hex, peer);
      var m := AbsorbIds(Merging(l, NO_CONFLICTS), other, ids - {last}, LastWriteWins, peer);
      SameStep(m, l.ops, other, last, hashLength, hex, peer);
    }
  }

  /** Where no additions compete for a path, a conflict-file merge shows the state that the plain merge shows. */
  lemma ConflictFileLosesNothingVisible(l: Log, other: Ops, hashLength: nat, hex: Link -> string, peer: PublicKey)
    requires Keyed(l.ops) && Keyed(other) && AddsApart(l.ops, other)
    ensures ResolveAll(MergeWith(l, other, ConflictFileWith(hashLength, hex), peer).log.ops)
            == ResolveAll(Merge(l, other).ops)
  {
    SameSteps(l, other, other.Keys, hashLength, hex, peer);
    LastWriteLosesNothingVisible(l, other, peer);
  }
}
