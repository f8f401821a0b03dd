/** Conflict detection, the four built-in resolvers, and the resolver-driven merge as a value. */
module Conflicts {
  import opened Content
  import opened PathOps

  datatype Conflict = Conflict(path: Path, base: PathOperation, incoming: PathOperation)

  datatype Resolution = UseBase | UseIncoming | KeepBoth | SkipBoth | RenameIncoming(newPath: Path)

  datatype ResolvedConflict = ResolvedConflict(conflict: Conflict, resolution: Resolution)

  datatype MergeResult = MergeResult(added: nat, resolved: seq<ResolvedConflict>, unresolved: seq<Conflict>)

  /** A resolution strategy: any decision on a conflict and the identity of the local peer. */
  type Resolver = (Conflict, PublicKey) -> Resolution

  predicate Destructive(opType: OpType) {
    opType.Remove? || opType.Mv?
  }

  predicate OperationsConflict(base: PathOperation, incoming: PathOperation) {
    && base.id != incoming.id
    && base.path == incoming.path
    && (Destructive(base.opType) || Destructive(incoming.opType) || (base.opType.Add? && incoming.opType.Add?))
  }

  // ---------- the built-in resolvers ----------

  function LastWriteWins(c: Conflict, localPeer: PublicKey): Resolution {
    if Less(c.base.id, c.incoming.id) then UseIncoming else UseBase
  }

  function BaseWins(c: Conflict, localPeer: PublicKey): Resolution {
    UseBase
  }

  function ForkOnConflict(c: Conflict, localPeer: PublicKey): Resolution {
    KeepBoth
  }

  /** Keeps two concurrent adds apart by renaming the incoming one; other conflicts go to the last write. */
  function ConflictFile(hashLength: nat, hex: Link -> string, c: Conflict): Resolution {
    if c.base.opType.Add? && c.incoming.opType.Add? then
      RenameIncoming(ConflictPath(c.incoming.path, Version(hashLength, hex, c.incoming)))
    else if Less(c.base.id, c.incoming.id) then UseIncoming
    else UseBase
  }

  /** The resolver for one hash length and one way of printing hashes. */
  function ConflictFileWith(hashLength: nat, hex: Link -> string): Resolver {
    (c: Conflict, localPeer: PublicKey) => ConflictFile(hashLength, hex, c)
  }

  /** The first characters of the content hash, or the timestamp of an operation without content. */
  function Version(hashLength: nat, hex: Link -> string, op: PathOperation): string {
    match op.contentLink
    case Some(link) => if |hex(link)| <= hashLength then hex(link) else hex(link)[..hashLength]
    case None => Decimal(op.id.timestamp)
  }

  function Decimal(n: nat): (s: string)
    ensures |s| > 0 && forall c :: c in s ==> '0' <= c <= '9'
  {
    var digit := '0' + (n % 10) as char;
    if n < 10 then [digit] else Decimal(n / 10) + [digit]
  }

  /** `<name>@<version>` in the same directory. A path without a file name is called "file". */
  function ConflictPath(path: Path, version: string): Path {
    if path == [] then ["file" + "@" + version]
    else path[..|path| - 1] + [path[|path| - 1] + "@" + version]
  }

  // ---------- the resolver-driven merge ----------

  /** The log being merged into, with the report so far. */
  datatype Merging = Merging(log: Log, result: MergeResult)

  function ConflictIds(ops: Ops, op: PathOperation): set<OpId> {
    set id | id in ops && OperationsConflict(ops[id], op)
  }

  /** The conflicting operation with the lowest id. */
  function FirstConflict(ops: Ops, op: PathOperation): Option<PathOperation> {
    var ids := ConflictIds(ops, op);
    if ids == {} then None else Some(ops[Least(ids)])
  }

  function Insert(m: Merging, id: OpId, op: PathOperation): Merging {
    Merging(Log(m.log.ops[id := op], m.log.clock), m.result.(added := m.result.added + 1))
  }

  function Resolved(m: Merging, c: Conflict, r: Resolution): Merging {
    m.(result := m.result.(resolved := m.result.resolved + [ResolvedConflict(c, r)]))
  }

  function Unresolved(m: Merging, c: Conflict): Merging {
    m.(result := m.result.(unresolved := m.result.unresolved + [c]))
  }

  /** One incoming operation. */
  function Absorb(m: Merging, id: OpId, op: PathOperation, resolver: Resolver, localPeer: PublicKey): Merging {
    if id in m.log.ops then m else
    var seen := m.(log := Log(m.log.ops, Tick(m.log.clock, id)));
    match FirstConflict(m.log.ops, op)
    case None => Insert(seen, id, op)
    case Some(base) =>
      var c := Conflict(op.path, base, op);
      var r := resolver(c, localPeer);
      match r
      case UseBase => Resolved(seen, c, r)
      case UseIncoming => Resolved(Insert(seen, id, op), c, r)
      case KeepBoth => Unresolved(Insert(seen, id, op), c)
      case SkipBoth => Resolved(seen, c, r)
      case RenameIncoming(newPath) => Resolved(Insert(seen, id, op.(path := newPath)), c, r)
  }

  /** The operations of `other` with the given ids, in ascending order. */
  function AbsorbIds(m: Merging, other: Ops, ids: set<OpId>, resolver: Resolver, localPeer: PublicKey): Merging
    requires ids <= other.Keys
  {
    if ids == {} then m else
    var last := Greatest(ids);
    Absorb(AbsorbIds(m, other, ids - {last}, resolver, localPeer), last, other[last], resolver, localPeer)
  }

  const NO_CONFLICTS := MergeResult(0, [], [])

  function MergeWith(l: Log, other: Ops, resolver: Resolver, localPeer: PublicKey): Merging {
    AbsorbIds(Merging(l, NO_CONFLICTS), other, other.Keys, resolver, localPeer)
  }

  /** Merges several logs into the first one, in the order given. */
  function MergeLogs(logs: seq<Log>, resolver: Resolver, localPeer: PublicKey): Log {
    if logs == [] then EMPTY_LOG
    else if |logs| == 1 then logs[0]
    else MergeWith(MergeLogs(logs[..|logs| - 1], resolver, localPeer), logs[|logs| - 1].ops, resolver, localPeer).log
  }

  /** The reports of those merges, one for each log after the first. */
  function MergeLogsReports(logs: seq<Log>, resolver: Resolver, localPeer: PublicKey): seq<MergeResult> {
    if |logs| <= 1 then []
    else
      var front := logs[..|logs| - 1];
      MergeLogsReports(front, resolver, localPeer)
      + [MergeWith(MergeLogs(front, resolver, localPeer), logs[|logs| - 1].ops, resolver, localPeer).result]
  }
}
