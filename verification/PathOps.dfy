/** Path operation logs as values: the order on operation ids, recording, the plain merge and path resolution. */
module PathOps {
  import opened Content

  type Ops = map<OpId, PathOperation>

  /** A log: the operations by id, and the Lamport clock, which is not stored with them. */
  datatype Log = Log(ops: Ops, clock: nat)

  const EMPTY_LOG := Log(map[], 0)

  /** Every operation is stored under its own id. Every member that builds a log keeps this. */
  ghost predicate Keyed(ops: Ops) {
    forall id :: id in ops ==> ops[id].id == id
  }

  /** The clock has reached every timestamp in the log. */
  ghost predicate ClockCovers(l: Log) {
    forall id :: id in l.ops ==> id.timestamp <= l.clock
  }

  /** Logs that hold the same operation under every id they share. */
  ghost predicate Agree(a: Ops, b: Ops) {
    forall id :: id in a && id in b ==> a[id] == b[id]
  }

  /** Everything in the one is in the other, unchanged. */
  ghost predicate Extends(few: Ops, all: Ops) {
    forall id :: id in few ==> id in all && all[id] == few[id]
  }

  // ---------- the order on operation ids ----------

  /** Timestamps first, the peer breaks ties. */
  predicate Less(a: OpId, b: OpId) {
    a.timestamp < b.timestamp || (a.timestamp == b.timestamp && a.peer < b.peer)
  }

  predicate AtMost(a: OpId, b: OpId) {
    a == b || Less(a, b)
  }

  /** The order is that of one number made of both parts: the timestamp counts in units beyond every peer. */
  lemma LessIsNumeric(a: OpId, b: OpId, unit: nat)
    requires a.peer < unit && b.peer < unit
    ensures Less(a, b) <==> a.timestamp * unit + a.peer < b.timestamp * unit + b.peer
  {
    if a.timestamp < b.timestamp {
      UnitsExceed(a.timestamp, b.timestamp, unit);
    } else if b.timestamp < a.timestamp {
      UnitsExceed(b.timestamp, a.timestamp, unit);
    }
  }

  lemma UnitsExceed(s: nat, t: nat, unit: nat)
    requires s < t
    ensures s * unit + unit <= t * unit
  {
    assert t * unit == s * unit + unit + (t - s - 1) * unit;
  }

  predicate IsLeast(m: OpId, s: set<OpId>) {
    m in s && forall x :: x in s ==> AtMost(m, x)
  }

  predicate IsGreatest(m: OpId, s: set<OpId>) {
    m in s && forall x :: x in s ==> AtMost(x, m)
  }

  lemma {:induction false} HasLeast(s: set<OpId>) returns (m: OpId)
    requires s != {}
    ensures IsLeast(m, s)
  {
    var x :| x in s;
    assert forall y :: y in s <==> y == x || y in s - {x};
    m := x;
    if s - {x} != {} {
      m := HasLeast(s - {x});
      m := if Less(x, m) then x else m;
    }
  }

  lemma {:induction false} HasGreatest(s: set<OpId>) returns (m: OpId)
    requires s != {}
    ensures IsGreatest(m, s)
  {
    var x :| x in s;
    assert forall y :: y in s <==> y == x || y in s - {x};
    m := x;
    if s - {x} != {} {
      m := HasGreatest(s - {x});
      m := if Less(m, x) then x else m;
    }
  }

  function Least(s: set<OpId>): (m: OpId)
    requires s != {}
    ensures IsLeast(m, s)
  {
    assert exists m :: IsLeast(m, s) by { var m := HasLeast(s); }
    var m :| IsLeast(m, s);
    m
  }

  function Greatest(s: set<OpId>): (m: OpId)
    requires s != {}
    ensures IsGreatest(m, s)
  {
    assert exists m :: IsGreatest(m, s) by { var m := HasGreatest(s); }
    var m :| IsGreatest(m, s);
    m
  }

  /** A new id that exceeds all ids of a set is the greatest of the extended set. */
  lemma NextIsGreatest(s: set<OpId>, next: OpId)
    requires forall x :: x in s ==> Less(x, next)
    ensures Greatest(s + {next}) == next && (s + {next}) - {next} == s
  {}

  // ---------- recording ----------

  /** A new local operation: the clock ticks and its value, with the peer, is the id. */
  function Record(l: Log, peer: PublicKey, opType: OpType, path: Path, link: Option<Link>, isDir: bool): Log {
    var id := OpId(l.clock + 1, peer);
    Log(l.ops[id := PathOperation(id, opType, path, link, isDir)], l.clock + 1)
  }

  function NextId(l: Log, peer: PublicKey): OpId {
    OpId(l.clock + 1, peer)
  }

  /** Saving a version empties the log and keeps the clock. */
  function Cleared(l: Log): Log {
    Log(map[], l.clock)
  }

  /** The clock of a log that was read back from storage: its greatest timestamp. */
  function Rebuilt(ops: Ops): Log {
    Log(ops, if ops.Keys == {} then 0 else Greatest(ops.Keys).timestamp)
  }

  /** The clock is the greatest timestamp in the log, or 0. */
  ghost predicate ClockIsGreatest(l: Log) {
    ClockCovers(l) && (l.clock == 0 || exists id :: id in l.ops && id.timestamp == l.clock)
  }

  lemma RebuiltIs(l: Log)
    ensures ClockIsGreatest(l) <==> l == Rebuilt(l.ops)
  {
    if l.ops.Keys != {} {
      assert Greatest(l.ops.Keys) in l.ops;
    }
  }

  // ---------- the plain merge ----------

  /** Seeing an unknown id moves the clock past it. */
  function Tick(clock: nat, id: OpId): nat {
    if id.timestamp >= clock then id.timestamp + 1 else clock
  }

  function MergeOne(l: Log, id: OpId, op: PathOperation): Log {
    if id in l.ops then l else Log(l.ops[id := op], Tick(l.clock, id))
  }

  /** Merges the operations of `other` with the given ids, in ascending order. */
  function MergeIds(l: Log, other: Ops, ids: set<OpId>): Log
    requires ids <= other.Keys
  {
    if ids == {} then l else
    var last := Greatest(ids);
    MergeOne(MergeIds(l, other, ids - {last}), last, other[last])
  }

  function Merge(l: Log, other: Ops): Log {
    MergeIds(l, other, other.Keys)
  }

  /** What merging leaves: the union of the logs, where the local operation wins a shared id. */
  lemma {:induction false} MergeIdsIsUnion(l: Log, other: Ops, ids: set<OpId>)
    requires ids <= other.Keys
    ensures var m := MergeIds(l, other, ids);
            && m.ops.Keys == l.ops.Keys + ids
            && (forall id :: id in l.ops ==> m.ops[id] == l.ops[id])
            && (forall id :: id in ids && id !in l.ops ==> m.ops[id] == other[id] && id.timestamp < m.clock)
            && l.clock <= m.clock
            && (m.clock == l.clock || exists id :: id in ids && id !in l.ops && m.clock == id.timestamp + 1)
  {
    if ids != {} {
      MergeIdsIsUnion(l, other, ids - {Greatest(ids)});
    }
  }

  /** The plain merge is map union with the local side preferred; its clock is the old one, or one more than the
      greatest timestamp it had not seen, whichever is greater. */
  lemma MergeIsUnion(l: Log, other: Ops)
    ensures Merge(l, other).ops == other + l.ops
    ensures l.clock <= Merge(l, other).clock
    ensures forall id :: id in other && id !in l.ops ==> id.timestamp < Merge(l, other).clock
    ensures || Merge(l, other).clock == l.clock
            || exists id :: id in other && id !in l.ops && Merge(l, other).clock == id.timestamp + 1
  {
    MergeIdsIsUnion(l, other, other.Keys);
  }

  lemma MergeSize(l: Log, other: Ops)
    ensures |Merge(l, other).ops| == |l.ops| + |other.Keys - l.ops.Keys|
  {
    MergeIsUnion(l, other);
    assert Merge(l, other).ops.Keys == l.ops.Keys + (other.Keys - l.ops.Keys);
  }

  // ---------- resolution ----------

  function IdsAt(ops: Ops, path: Path): set<OpId> {
    set id | id in ops && ops[id].path == path
  }

  /** The operation with the greatest id among those at a path. */
  function Winner(ops: Ops, path: Path): Option<PathOperation> {
    var ids := IdsAt(ops, path);
    if ids == {} then None else Some(ops[Greatest(ids)])
  }

  function PathsOf(ops: Ops): set<Path> {
    set id | id in ops :: ops[id].path
  }

  /** The visible state: the winner of every path, unless it is a removal. */
  function ResolveAll(ops: Ops): map<Path, PathOperation> {
    map p | p in PathsOf(ops) && Winner(ops, p).Some? && !Winner(ops, p).value.opType.Remove? :: Winner(ops, p).value
  }

  /** The winner is the one operation at the path that no other operation there exceeds. */
  lemma WinnerIs(ops: Ops, path: Path, id: OpId)
    requires id in ops && ops[id].path == path
    requires forall other :: other in IdsAt(ops, path) ==> AtMost(other, id)
    ensures Winner(ops, path) == Some(ops[id])
  {
    assert id in IdsAt(ops, path);
  }

  /** The operation is at the path, and no operation at the path exceeds it. */
  ghost predicate IsNewest(ops: Ops, path: Path, id: OpId) {
    id in ops && ops[id].path == path && forall x :: x in ops && ops[x].path == path ==> AtMost(x, id)
  }

  /** The visible state, path by path: a path is visible exactly when its newest operation is no removal, and shows that
      operation. */
  lemma ResolvesExactly(ops: Ops, path: Path)
    ensures path in ResolveAll(ops) <==> exists id :: IsNewest(ops, path, id) && !ops[id].opType.Remove?
    ensures forall id :: path in ResolveAll(ops) && IsNewest(ops, path, id) ==> ResolveAll(ops)[path] == ops[id]
  {
    PathListed(ops, path);
    var ids := IdsAt(ops, path);
    forall x | x in ops && ops[x].path == path ensures x in ids {}
    if ids != {} {
      assert IsNewest(ops, path, Greatest(ids));
      forall id | IsNewest(ops, path, id) ensures id == Greatest(ids) {}
    }
  }

  /** Logs with the same winner everywhere show the same state. */
  lemma SameWinnersSameState(a: Ops, b: Ops)
    requires forall p :: Winner(a, p) == Winner(b, p)
    ensures ResolveAll(a) == ResolveAll(b)
  {
    forall p
      ensures p in ResolveAll(a) <==> p in ResolveAll(b)
      ensures p in ResolveAll(a) ==> ResolveAll(a)[p] == ResolveAll(b)[p]
    {
      assert Winner(a, p) == Winner(b, p);
      PathListed(a, p);
      PathListed(b, p);
    }
  }

  lemma PathListed(ops: Ops, p: Path)
    ensures p in PathsOf(ops) <==> Winner(ops, p).Some?
  {
    if p in PathsOf(ops) {
      var id :| id in ops && ops[id].path == p;
      assert id in IdsAt(ops, p);
    }
  }
}
