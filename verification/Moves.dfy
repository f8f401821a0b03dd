/** Moving conserves content, and exactly which failed moves do not leave the tree alone. */
module Moves {
  import opened Content
  import opened Trees
  import opened TreeUpdates
  import opened Mounts

  /** The map after moving `from` to `to`: the old subtree at the new place, nothing at the old one, folders on the way
      to the new one, and everything else as before. */
  function Moved(node: Node, from: Path, to: Path, q: Path): Option<Entry> {
    if to <= q then Stat(node, from + q[|to|..])
    else if q <= to then Some(Folder)
    else if from <= q then None
    else Stat(node, q)
  }

  lemma SameThroughFile(a: Node, b: Node, store: Store, more: Store, path: Path)
    requires Intact(store, a) && Intact(more, b)
    requires forall q :: q != [] && q <= path ==> Stat(a, q) == Stat(b, q)
    ensures ThroughFile(a, path) <==> ThroughFile(b, path)
  {
    ThroughFileIs(store, a, path);
    ThroughFileIs(more, b, path);
    forall q: Path | q != [] && q <= path ensures IsFile(a, q) == IsFile(b, q) {}
  }

  predicate IsFile(node: Node, q: Path) {
    Stat(node, q).Some? && Stat(node, q).value.File?
  }

  /** A walk meets a file exactly when some prefix of its path is one. */
  lemma {:induction false} ThroughFileIs(store: Store, node: Node, path: Path)
    requires Intact(store, node)
    ensures ThroughFile(node, path) <==> exists q: Path :: q != [] && q <= path && IsFile(node, q)
  {
    if path != [] && path[0] in node.links {
      IntactChild(store, node, path[0]);
      var nl := node.links[path[0]];
      if nl.Data? {
        LookupStep(node, path[0], []);
        assert IsFile(node, [path[0]]) && [path[0]] <= path;
      } else {
        var child := Opened(nl).value;
        ThroughFileIs(store, child, path[1..]);
        if ThroughFile(child, path[1..]) {
          var q: Path :| q != [] && q <= path[1..] && IsFile(child, q);
          LookupStep(node, path[0], q);
          assert [path[0]] + q <= path && IsFile(node, [path[0]] + q);
        }
        forall q: Path | q != [] && q <= path && IsFile(node, q) ensures ThroughFile(node, path) {
          assert q[0] == path[0] && q[1..] <= path[1..];
          LookupStep(node, path[0], []);
          assert IsFile(child, q[1..]);
        }
      }
    }
  }

  /** What a removed link shows is what was below its path. */
  lemma LinkShowsSubtree(store: Store, node: Node, from: Path, rest: Path)
    requires Intact(store, node) && from != [] && Lookup(node, from).Some?
    ensures StatLink(Lookup(node, from).value, rest) == Stat(node, from + rest)
  {
    var nl := Lookup(node, from).value;
    if rest == [] {
      assert from + rest == from;
    } else if nl.Data? {
      UnderNonFolder(store, node, from, rest);
    } else {
      WalkFinds(store, node, from);
      WalkOpens(store, node, from);
    }
  }

  lemma {:induction false} WalkOpens(store: Store, node: Node, path: Path)
    requires Intact(store, node) && path != [] && Lookup(node, path).Some? && Lookup(node, path).value.Dir?
    ensures GetNodeAt(store, node, path) == Ok(Opened(Lookup(node, path).value).value)
  {
    IntactChild(store, node, path[0]);
    if |path| > 1 {
      WalkOpens(store, Opened(node.links[path[0]]).value, path[1..]);
    }
  }

  /** A link found in an intact tree is whole, and pinned with the tree. */
  lemma FoundIsWhole(store: Store, node: Node, path: Path, pins: set<Hash>)
    requires Intact(store, node) && path != [] && Lookup(node, path).Some?
    ensures Whole(store, Lookup(node, path).value)
    ensures Pinned(pins, node) ==>
              && Lookup(node, path).value.link.hash in pins
              && (Opened(Lookup(node, path).value).Some? ==> Pinned(pins, Opened(Lookup(node, path).value).value))
  {
    if Lookup(node, path).value.Dir? {
      WalkFinds(store, node, path);
      WalkOpens(store, node, path);
    }
  }

  /** The source exists, the destination is outside it and free. */
  ghost predicate MayMove(node: Node, from: Path, to: Path) {
    !(from <= to) && Lookup(node, from).Some? && (to == [] || Lookup(node, to).None?)
  }

  /** The way to the destination is blocked: it is the root, or a directory above it is a file. */
  ghost predicate Blocked(node: Node, to: Path) {
    to == [] || ThroughFile(node, Front(to))
  }

  /** Taking the source out first does not change whether the way is blocked. */
  lemma StillBlocked(store: Store, node: Node, from: Path, to: Path, own: Secret, spine: nat -> Secret)
    requires Intact(store, node) && from != [] && !(from <= to) && to != [] && Unlink(store, node, from, own, spine).Ok?
    ensures ThroughFile(Unlink(store, node, from, own, spine).value.node, Front(to)) <==> ThroughFile(node, Front(to))
  {
    var u := Unlink(store, node, from, own, spine).value;
    UnlinkRefinesRemoval(store, node, from, own, spine);
    UnlinkKeepsIntact(store, node, from, own, spine);
    forall q: Path | q != [] && q <= Front(to) ensures Stat(node, q) == Stat(u.node, q) {
      assert !(from <= q);
    }
    SameThroughFile(node, u.node, store, store + u.hashes, Front(to));
  }

  /** The second half of a move, on the tree the first half left. */
  lemma MoveLands(store: Store, node: Node, from: Path, to: Path, own: Secret, spineOut: nat -> Secret,
                  spineIn: nat -> Secret, more: Store)
    requires Intact(store, node) && from != [] && MayMove(node, from, to) && to != []
    requires Unlink(store, node, from, own, spineOut).Ok?
    requires store + Unlink(store, node, from, own, spineOut).value.hashes <= more
    ensures var taken, nl := Unlink(store, node, from, own, spineOut).value.node, Lookup(node, from).value;
            var r := SetLink(more, taken, nl, to, spineIn);
            && (r.Ok? <==> !Blocked(node, to)) && (r.Err? ==> r.error == PathNotNode)
            && (r.Ok?
                ==> Lookup(r.value.0, to) == Some(nl) && forall q :: Stat(r.value.0, q) == Moved(node, from, to, q))
  {
    var u, nl := Unlink(store, node, from, own, spineOut).value, Lookup(node, from).value;
    UnlinkKeepsIntact(store, node, from, own, spineOut);
    MoreStoreIntact(store + u.hashes, more, u.node);
    StillBlocked(store, node, from, to, own, spineOut);
    LinkRefinesUpdate(more, u.node, nl, to, spineIn);
    UnlinkRefinesRemoval(store, node, from, own, spineOut);
    forall q ensures Linked(u.node, to, nl, q) == Moved(node, from, to, q) {
      if to <= q {
        LinkShowsSubtree(store, node, from, q[|to|..]);
      }
    }
  }

  /** A move into its own source, from nowhere, or onto something is refused and changes nothing at all. */
  lemma RefusedMoveIsNoOp(m: MountState, store: Store, from: Path, to: Path, own: Secret, spineOut: nat -> Secret,
                          spineIn: nat -> Secret)
    requires Intact(store, m.entry) && !MayMove(m.entry, from, to)
    ensures var o := Move(m, store, from, to, own, spineOut, spineIn);
            && o.result.Err? && o.mount == m && o.store == store
            && o.result.error ==
               if from <= to then MoveIntoSelf
               else if Lookup(m.entry, from).Some? then PathAlreadyExists
               else if ThroughFile(m.entry, Front(from)) then CodecError
               else PathNotFound
  {
    if !(from <= to) {
      LookupLast(store, m.entry, from);
      if to != [] {
        LookupLast(store, m.entry, to);
      }
    }
  }

  /** A move that is not refused lands exactly when the way to the destination is not blocked. If it lands, the map is
      the moved map, the link itself is reused and one operation is recorded. If it is blocked, the source is gone and
      nothing is recorded. */
  lemma MoveConserves(m: MountState, store: Store, from: Path, to: Path, own: Secret, spineOut: nat -> Secret,
                      spineIn: nat -> Secret)
    requires Intact(store, m.entry) && MayMove(m.entry, from, to)
    ensures var o := Move(m, store, from, to, own, spineOut, spineIn);
            && (o.result.Ok? <==> !Blocked(m.entry, to))
            && (o.result.Ok? ==>
                  && Lookup(o.mount.entry, to) == Lookup(m.entry, from)
                  && (forall q :: Stat(o.mount.entry, q) == Moved(m.entry, from, to, q))
                  && o.mount.ops == Recorded(m, Mv(from), to, None, Stat(m.entry, from) == Some(Folder)))
            && (o.result.Err? ==>
                  && o.result.error == (if to == [] then Panicked else PathNotNode)
                  && (forall q :: Stat(o.mount.entry, q) == Removed(m.entry, from, q))
                  && o.mount.ops == m.ops)
  {
    LookupLast(store, m.entry, from);
    UnlinkRefinesRemoval(store, m.entry, from, own, spineOut);
    if to != [] {
      LookupLast(store, m.entry, to);
      MoveLands(store, m.entry, from, to, own, spineOut, spineIn,
                store + UnlinkPuts(store, m.entry, from, own)
                + Unlink(store, m.entry, from, own, spineOut).value.hashes);
    }
  }

  /** Which failures are not clean: a failed move changes the tree exactly when it was allowed to start and the way to
      its destination is blocked. */
  lemma FailedMoveIsCleanUnlessBlocked(m: MountState, store: Store, from: Path, to: Path, own: Secret,
                                       spineOut: nat -> Secret, spineIn: nat -> Secret)
    requires Intact(store, m.entry)
    ensures var o := Move(m, store, from, to, own, spineOut, spineIn);
            o.result.Err? ==>
              ((exists q :: Stat(o.mount.entry, q) != Stat(m.entry, q))
                  <==> MayMove(m.entry, from, to) && Blocked(m.entry, to))
  {
    if MayMove(m.entry, from, to) {
      MoveConserves(m, store, from, to, own, spineOut, spineIn);
      if Blocked(m.entry, to) {
        assert Stat(Move(m, store, from, to, own, spineOut, spineIn).mount.entry, from) != Stat(m.entry, from);
      }
    } else {
      RefusedMoveIsNoOp(m, store, from, to, own, spineOut, spineIn);
    }
  }

  /** Such a move exists: onto a path below another file. */
  lemma MoveBelowFileLosesSource(store: Store, m: MountState, a: string, file: NodeLink, b: string, other: NodeLink,
                                 c: string, own: Secret, spineOut: nat -> Secret, spineIn: nat -> Secret)
    requires a != b && file.Data? && other.Data? && Sound(store, file) && Sound(store, other)
    requires m.entry == Node(map[a := file, b := other])
    ensures var o := Move(m, store, [a], [b, c], own, spineOut, spineIn);
            && o.result == Err(PathNotNode)
            && Stat(m.entry, [a]) == Some(File(file.link, file.secret)) && Stat(o.mount.entry, [a]).None?
  {
    var n := m.entry;
    forall q | Lookup(n, q).Some? ensures Sound(store, Lookup(n, q).value) {
      assert q[0] in n.links;
    }
    assert Front([b, c]) == [b];
    assert Lookup(n, [a]) == Some(file);
    MoveConserves(m, store, [a], [b, c], own, spineOut, spineIn);
  }
}
