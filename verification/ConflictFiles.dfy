/** The conflict-file strategy keeps every edit: two logs of additions are both kept whole, side by side. */
module ConflictFiles {
  import opened Content
  import opened PathOps
  import opened Conflicts
  import opened MergeLaws

  ghost predicate AddsOnly(ops: Ops) {
    forall id :: id in ops ==> ops[id].opType.Add?
  }

  /** Where an incoming operation goes when its path is taken. */
  function Renamed(hashLength: nat, hex: Link -> string, op: PathOperation): PathOperation {
    op.(path := ConflictPath(op.path, Version(hashLength, hex, op)))
  }

  /** An addition keeps its path exactly when no addition at that path is held. */
  lemma AddShape(m: Merging, id: OpId, op: PathOperation, hashLength: nat, hex: Link -> string, peer: PublicKey)
    requires AddsOnly(m.log.ops) && Keyed(m.log.ops) && op.opType.Add? && op.id == id && id !in m.log.ops
    ensures Absorb(m, id, op, ConflictFileWith(hashLength, hex), peer).log.ops
            == m.log.ops[id := if IdsAt(m.log.ops, op.path) == {} then op else Renamed(hashLength, hex, op)]
  {
    assert ConflictIds(m.log.ops, op) == IdsAt(m.log.ops, op.path);
  }

  /** The incoming ids below this one that are not held locally: those that are stored before it. */
  function Earlier(l: Ops, other: Ops, id: OpId): set<OpId> {
    set x | x in other && x !in l && Less(x, id)
  }

  lemma EarlierShrinks(l: Ops, other: Ops, x: OpId, id: OpId)
    requires x in Earlier(l, other, id)
    ensures Earlier(l, other, x) < Earlier(l, other, id)
  {}

  /** Whether a path is taken when the turn of an incoming id comes, by the two logs alone: a local operation is there,
      or an earlier incoming one has that path, or has it as its conflict path and finds its own path taken. */
  ghost predicate Occupied(l: Ops, other: Ops, id: OpId, path: Path, hashLength: nat, hex: Link -> string)
    decreases Earlier(l, other, id)
  {
    || IdsAt(l, path) != {}
    || exists x ::
         && x in Earlier(l, other, id)
         && (|| other[x].path == path
             || (&& Renamed(hashLength, hex, other[x]).path == path
                 && (EarlierShrinks(l, other, x, id); Occupied(l, other, x, other[x].path, hashLength, hex))))
  }

  /** Where an incoming operation goes: to its conflict path exactly if its own path is taken. */
  ghost function PlacedAs(l: Ops, other: Ops, id: OpId, hashLength: nat, hex: Link -> string): PathOperation
    requires id in other
  {
    if Occupied(l, other, id, other[id].path, hashLength, hex) then Renamed(hashLength, hex, other[id]) else other[id]
  }

  /** The merged log after the given ids: the local operations, and each incoming one where it goes. */
  ghost predicate AllPlaced(l: Ops, merged: Ops, other: Ops, ids: set<OpId>, hashLength: nat, hex: Link -> string)
    requires ids <= other.Keys
  {
    && merged.Keys == l.Keys + ids && Keyed(merged) && AddsOnly(merged) && Extends(l, merged)
    && forall id :: id in ids && id !in l ==> merged[id] == PlacedAs(l, other, id, hashLength, hex)
  }

  /** A path that is taken for an id has an operation in the merged log. */
  lemma {:induction false} OccupiedIsHeld(l: Ops, merged: Ops, other: Ops, ids: set<OpId>, id: OpId, path: Path,
                                          hashLength: nat, hex: Link -> string)
    requires ids <= other.Keys && AllPlaced(l, merged, other, ids, hashLength, hex) && Earlier(l, other, id) <= ids
    requires Occupied(l, other, id, path, hashLength, hex)
    ensures IdsAt(merged, path) != {}
    decreases Earlier(l, other, id)
  {
    if IdsAt(l, path) != {} {
      var x :| x in IdsAt(l, path);
      assert x in IdsAt(merged, path);
    } else {
      var x :| x in Earlier(l, other, id)
               && (other[x].path == path
                   || (Renamed(hashLength, hex, other[x]).path == path
                       && Occupied(l, other, x, other[x].path, hashLength, hex)));
      if merged[x].path == path {
        assert x in IdsAt(merged, path);
      } else {
        EarlierShrinks(l, other, x, id);
        OccupiedIsHeld(l, merged, other, ids, x, path, hashLength, hex);
      }
    }
  }

  /** And conversely, when exactly the earlier ids have been merged. */
  lemma HeldIsOccupied(l: Ops, merged: Ops, other: Ops, ids: set<OpId>, id: OpId, path: Path, hashLength: nat,
                       hex: Link -> string)
    requires ids <= other.Keys && AllPlaced(l, merged, other, ids, hashLength, hex)
    requires forall x :: x in ids ==> Less(x, id)
    requires IdsAt(merged, path) != {}
    ensures Occupied(l, other, id, path, hashLength, hex)
  {
    var x :| x in IdsAt(merged, path);
    if x in l {
      assert x in IdsAt(l, path);
    } else {
      assert x in Earlier(l, other, id);
    }
  }

  /** No incoming id below one of these is missing. */
  ghost predicate Initial(other: Ops, ids: set<OpId>) {
    forall x, y :: x in other && y in ids && Less(x, y) ==> x in ids
  }

  lemma {:induction false} KeepsAllIds(l: Log, other: Ops, ids: set<OpId>, hashLength: nat, hex: Link -> string,
                                       peer: PublicKey)
    requires AddsOnly(l.ops) && AddsOnly(other) && Keyed(l.ops) && Keyed(other)
    requires ids <= other.Keys && Initial(other, ids)
    ensures var m := AbsorbIds(Merging(l, NO_CONFLICTS), other, ids, ConflictFileWith(hashLength, hex), peer);
            AllPlaced(l.ops, m.log.ops, other, ids, hashLength, hex)
  {
    if ids != {} {
      var last := Greatest(ids);
      KeepsAllIds(l, other, ids - {last}, hashLength, hex, peer);
      var m := AbsorbIds(Merging(l, NO_CONFLICTS), other, ids - {last}, ConflictFileWith(hashLength, hex), peer);
      if last !in l.ops {
        AddShape(m, last, other[last], hashLength, hex, peer);
        OneMorePlaced(l.ops, m.log.ops, other, ids, last, hashLength, hex);
      }
    }
  }

  /** What is stored for the next id is the operation where it goes. */
  lemma NextIsPlaced(l: Ops, merged: Ops, other: Ops, ids: set<OpId>, last: OpId, hashLength: nat, hex: Link -> string)
    requires ids <= other.Keys && AllPlaced(l, merged, other, ids, hashLength, hex) && last in other
    requires Earlier(l, other, last) <= ids && forall x :: x in ids ==> Less(x, last)
    ensures PlacedAs(l, other, last, hashLength, hex)
            == if IdsAt(merged, other[last].path) == {} then other[last] else Renamed(hashLength, hex, other[last])
  {
    var path := other[last].path;
    if IdsAt(merged, path) != {} {
      HeldIsOccupied(l, merged, other, ids, last, path, hashLength, hex);
    } else if Occupied(l, other, last, path, hashLength, hex) {
      OccupiedIsHeld(l, merged, other, ids, last, path, hashLength, hex);
    }
  }

  lemma OneMorePlaced(l: Ops, merged: Ops, other: Ops, ids: set<OpId>, last: OpId, hashLength: nat, hex: Link -> string)
    requires AddsOnly(other) && Keyed(other) && ids <= other.Keys && Initial(other, ids)
    requires IsGreatest(last, ids) && last !in l && AllPlaced(l, merged, other, ids - {last}, hashLength, hex)
    ensures var op := other[last];
            var stored := if IdsAt(merged, op.path) == {} then op else Renamed(hashLength, hex, op);
            AllPlaced(l, merged[last := stored], other, ids, hashLength, hex)
  {
    NextIsPlaced(l, merged, other, ids - {last}, last, hashLength, hex);
  }

  /** Additions on both sides: every id of either log is kept, the local operations as they are and each incoming one
      with its content. An incoming operation is renamed exactly when its path is occupied, which the two logs
      decide. */
  lemma KeepsEveryEdit(l: Log, other: Ops, hashLength: nat, hex: Link -> string, peer: PublicKey)
    requires AddsOnly(l.ops) && AddsOnly(other) && Keyed(l.ops) && Keyed(other)
    ensures var ops := MergeWith(l, other, ConflictFileWith(hashLength, hex), peer).log.ops;
            && ops.Keys == l.ops.Keys + other.Keys && Keyed(ops) && Extends(l.ops, ops)
            && (forall id :: id in other && id !in l.ops ==>
                  && ops[id] == PlacedAs(l.ops, other, id, hashLength, hex)
                  && ops[id].contentLink == other[id].contentLink)
  {
    KeepsAllIds(l, other, other.Keys, hashLength, hex, peer);
  }

  /** An incoming operation comes to a path from elsewhere: it is renamed, because its own path is occupied. */
  ghost predicate LandsOn(l: Ops, other: Ops, id: OpId, p: Path, hashLength: nat, hex: Link -> string) {
    && id in other && id !in l
    && Renamed(hashLength, hex, other[id]).path == p && Occupied(l, other, id, other[id].path, hashLength, hex)
  }

  /** Where there is a local operation, only those come that land from elsewhere. */
  lemma PlacedAtLocal(l: Ops, other: Ops, id: OpId, p: Path, hashLength: nat, hex: Link -> string)
    requires id in other && id !in l && IdsAt(l, p) != {}
    ensures PlacedAs(l, other, id, hashLength, hex).path == p <==> LandsOn(l, other, id, p, hashLength, hex)
  {
    RenamedElsewhere(other[id], hashLength, hex);
  }

  /** The local winner of a path keeps it exactly when no newer incoming operation lands on it, by the two logs
      alone. */
  lemma LocalWinnerSurvives(l: Log, other: Ops, hashLength: nat, hex: Link -> string, peer: PublicKey, p: Path)
    requires AddsOnly(l.ops) && AddsOnly(other) && Keyed(l.ops) && Keyed(other)
    requires Winner(l.ops, p).Some?
    ensures var ops := MergeWith(l, other, ConflictFileWith(hashLength, hex), peer).log.ops;
            var w := Winner(l.ops, p);
            Winner(ops, p) == w
            <==> forall id :: Less(w.value.id, id) ==> !LandsOn(l.ops, other, id, p, hashLength, hex)
  {
    var ops := MergeWith(l, other, ConflictFileWith(hashLength, hex), peer).log.ops;
    KeepsEveryEdit(l, other, hashLength, hex, peer);
    var g := Greatest(IdsAt(l.ops, p));
    forall id | id in other && id !in l.ops
      ensures ops[id].path == p <==> LandsOn(l.ops, other, id, p, hashLength, hex)
    {
      PlacedAtLocal(l.ops, other, id, p, hashLength, hex);
    }
    assert g in IdsAt(ops, p);
    if forall id :: Less(g, id) ==> !LandsOn(l.ops, other, id, p, hashLength, hex) {
      forall id | id in IdsAt(ops, p) ensures AtMost(id, g) {
        assert id in l.ops ==> id in IdsAt(l.ops, p);
      }
      WinnerIs(ops, p, g);
    } else {
      var id :| Less(g, id) && LandsOn(l.ops, other, id, p, hashLength, hex);
      assert id in IdsAt(ops, p);
    }
  }

  lemma RenamedElsewhere(op: PathOperation, hashLength: nat, hex: Link -> string)
    ensures Renamed(hashLength, hex, op).path != op.path
  {
    if op.path != [] {
      var name, renamed := op.path[|op.path| - 1], Renamed(hashLength, hex, op).path;
      assert |renamed[|op.path| - 1]| > |name|;
    }
  }

  /** A path whose file name has no '@' keeps its local winner, whatever comes in. */
  lemma PlainNamesKeepLocal(l: Log, other: Ops, hashLength: nat, hex: Link -> string, peer: PublicKey, p: Path)
    requires AddsOnly(l.ops) && AddsOnly(other) && Keyed(l.ops) && Keyed(other)
    requires Winner(l.ops, p).Some? && (p != [] ==> '@' !in p[|p| - 1])
    ensures Winner(MergeWith(l, other, ConflictFileWith(hashLength, hex), peer).log.ops, p) == Winner(l.ops, p)
  {
    LocalWinnerSurvives(l, other, hashLength, hex, peer, p);
    forall id | id in other ensures Renamed(hashLength, hex, other[id]).path != p {
      var renamed := Renamed(hashLength, hex, other[id]).path;
      assert '@' in renamed[|renamed| - 1];
    }
  }

  /** Splitting at the last '@' gives the name and the version back. */
  lemma LastAtSplits(a: string, v: string, b: string, w: string)
    requires a + "@" + v == b + "@" + w && '@' !in v && '@' !in w
    ensures a == b && v == w
  {
    var s := a + "@" + v;
    assert s[|a|] == '@' && s[|b|] == '@';
    assert v == s[|a| + 1..] && w == s[|b| + 1..];
    assert a == s[..|a|] && b == s[..|b|];
  }

  /** A path without a file name is called "file". */
  function Named(path: Path): Path {
    if path == [] then ["file"] else path
  }

  /** Conflict paths determine the path and the version they were made from, when versions contain no '@'. */
  lemma ConflictPathInjective(p: Path, v: string, q: Path, w: string)
    requires '@' !in v && '@' !in w
    ensures ConflictPath(p, v) == ConflictPath(q, w) <==> Named(p) == Named(q) && v == w
  {
    NamedConflictPath(p, v);
    NamedConflictPath(q, w);
    if ConflictPath(p, v) == ConflictPath(q, w) {
      NamedInjective(Named(p), v, Named(q), w);
    }
  }

  lemma NamedConflictPath(p: Path, v: string)
    ensures ConflictPath(p, v) == ConflictPath(Named(p), v)
  {
    if p == [] {
      assert ["file"][..0] == [] && [] + ["file" + "@" + v] == ["file" + "@" + v];
    }
  }

  lemma NamedInjective(p: Path, v: string, q: Path, w: string)
    requires p != [] && q != [] && '@' !in v && '@' !in w && ConflictPath(p, v) == ConflictPath(q, w)
    ensures p == q && v == w
  {
    var c := ConflictPath(p, v);
    assert c[..|c| - 1] == p[..|p| - 1] == q[..|q| - 1];
    assert c[|c| - 1] == p[|p| - 1] + "@" + v == q[|q| - 1] + "@" + w;
    LastAtSplits(p[|p| - 1], v, q[|q| - 1], w);
    assert p == p[..|p| - 1] + [p[|p| - 1]] && q == q[..|q| - 1] + [q[|q| - 1]];
  }

  /** The number that digits stand for. */
  function Digits(s: string): nat
    requires forall c :: c in s ==> '0' <= c <= '9'
  {
    if s == [] then 0 else
    var front, last := s[..|s| - 1], s[|s| - 1];
    assert last in s && forall c :: c in front ==> c in s;
    10 * Digits(front) + (last - '0') as nat
  }

  lemma {:induction false} DecimalDigits(n: nat)
    ensures Digits(Decimal(n)) == n
    ensures n > 0 ==> Decimal(n)[0] != '0'
  {
    if n >= 10 {
      DecimalDigits(n / 10);
      assert Decimal(n)[..|Decimal(n)| - 1] == Decimal(n / 10);
    }
  }

  /** A version is the start of the printed content hash, as long as asked for if the hash is, or the timestamp of an
      operation without content, in decimal and without leading zeros. */
  lemma VersionIs(hashLength: nat, hex: Link -> string, op: PathOperation)
    ensures var v := Version(hashLength, hex, op);
            match op.contentLink
            case Some(link) =>
              v <= hex(link) && |v| <= hashLength && (v != hex(link) ==> |v| == hashLength)
            case None =>
              && (forall c :: c in v ==> '0' <= c <= '9') && Digits(v) == op.id.timestamp
              && (|v| > 1 ==> v[0] != '0')
  {
    DecimalDigits(op.id.timestamp);
  }

  /** The versions the resolver makes contain no '@' when printed hashes contain none; so renamed operations land on one
      path exactly when they came from one path with one version. */
  lemma RenamesStayApart(a: PathOperation, b: PathOperation, hashLength: nat, hex: Link -> string)
    requires forall l :: '@' !in hex(l)
    ensures Renamed(hashLength, hex, a).path == Renamed(hashLength, hex, b).path
            <==> Named(a.path) == Named(b.path) && Version(hashLength, hex, a) == Version(hashLength, hex, b)
  {
    ConflictPathInjective(a.path, Version(hashLength, hex, a), b.path, Version(hashLength, hex, b));
  }

  /** A local winner can lose: a newer addition that conflicts at `name` is renamed onto the local `name@version`. */
  lemma RenameDisplacesLocal(name: string, link: Link, local: PublicKey, remote: PublicKey, hashLength: nat,
                             hex: Link -> string, peer: PublicKey)
    ensures var incoming := PathOperation(OpId(3, remote), Add, [name], Some(link), false);
            var landing := [name + "@" + Version(hashLength, hex, incoming)];
            var first := PathOperation(OpId(1, local), Add, [name], Some(link), false);
            var second := PathOperation(OpId(2, local), Add, landing, Some(link), false);
            var l := Log(map[first.id := first, second.id := second], 2);
            var ops := MergeWith(l, map[incoming.id := incoming], ConflictFileWith(hashLength, hex), peer).log.ops;
            && Winner(l.ops, landing) == Some(second)
            && Winner(ops, landing) == Some(incoming.(path := landing))
  {
    var incoming := PathOperation(OpId(3, remote), Add, [name], Some(link), false);
    var landing := [name + "@" + Version(hashLength, hex, incoming)];
    var first := PathOperation(OpId(1, local), Add, [name], Some(link), false);
    var second := PathOperation(OpId(2, local), Add, landing, Some(link), false);
    var l, other := Log(map[first.id := first, second.id := second], 2), map[incoming.id := incoming];
    var ops := MergeWith(l, other, ConflictFileWith(hashLength, hex), peer).log.ops;
    KeepsEveryEdit(l, other, hashLength, hex, peer);
    assert landing != [name] by { assert |landing[0]| > |name|; }
    WinnerIs(l.ops, landing, second.id);
    assert first.id in IdsAt(l.ops, [name]);
    assert Renamed(hashLength, hex, incoming).path == landing;
    WinnerIs(ops, landing, incoming.id);
  }
}
