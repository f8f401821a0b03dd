/** Path copying refines an update of the map from paths to entries. */
module TreeUpdates {
  import opened Content
  import opened Trees

  // ---------- linking ----------

  /** What a link shows at a path below it. */
  function Below(nl: NodeLink, rest: Path): Option<NodeLink> {
    if Opened(nl).None? then None else Lookup(Opened(nl).value, rest)
  }

  function StatLink(nl: NodeLink, rest: Path): Option<Entry> {
    if rest == [] then (if nl.Data? then Some(File(nl.link, nl.secret)) else Some(Folder))
    else if Opened(nl).None? then None
    else Stat(Opened(nl).value, rest)
  }

  /** The map after linking `nl` at `path`: the link and what is below it at and below the path, folders on the way,
      and everything else as before. */
  function Linked(node: Node, path: Path, nl: NodeLink, q: Path): Option<Entry> {
    if path <= q then StatLink(nl, q[|path|..])
    else if q <= path then Some(Folder)
    else Stat(node, q)
  }

  /** A link that may be put into a tree: it opens, and everything below it is present. */
  ghost predicate Whole(store: Store, nl: NodeLink) {
    Sound(store, nl) && (nl.Dir? ==> Intact(store, Opened(nl).value))
  }

  /** In an intact tree a link can be set exactly when no directory on the way is a file. */
  lemma {:induction false} RebuildSucceeds(store: Store, node: Node, nl: NodeLink, path: Path, spine: nat -> Secret,
                                           depth: nat)
    requires Intact(store, node) && path != []
    ensures var r := Rebuild(store, node, nl, path, spine, depth);
            (r.Ok? <==> !ThroughFile(node, Front(path))) && (r.Err? ==> r.error == PathNotNode)
    decreases |path|
  {
    if |path| > 1 {
      assert Front(path)[1..] == Front(path[1..]) && Front(path)[0] == path[0];
      if path[0] !in node.links {
        RebuildSucceeds(store, EMPTY_NODE, nl, path[1..], spine, depth + 1);
      } else {
        IntactChild(store, node, path[0]);
        if node.links[path[0]].Dir? {
          RebuildSucceeds(store, Opened(node.links[path[0]]).value, nl, path[1..], spine, depth + 1);
        }
      }
    }
  }

  /** The directory the rebuild goes into at the first component. */
  function ChildOf(node: Node, name: string): Node {
    if name in node.links && Opened(node.links[name]).Some? then Opened(node.links[name]).value else EMPTY_NODE
  }

  lemma RebuildStep(store: Store, node: Node, nl: NodeLink, path: Path, spine: nat -> Secret, depth: nat)
    requires Intact(store, node) && |path| > 1 && Rebuild(store, node, nl, path, spine, depth).Ok?
    ensures Intact(store, ChildOf(node, path[0]))
    ensures path[0] in node.links ==> Opened(node.links[path[0]]).Some?
    ensures var r := Rebuild(store, ChildOf(node, path[0]), nl, path[1..], spine, depth + 1);
            r.Ok?
            && var link := SealNode(r.value.0, spine(depth + 1));
               Rebuild(store, node, nl, path, spine, depth).value
               == (Node(node.links[path[0] := Dir(link, spine(depth + 1))]), r.value.1 + {link.hash})
  {
    if path[0] in node.links {
      IntactChild(store, node, path[0]);
    }
  }

  /** What every path names after a rebuild. */
  lemma {:induction false} RebuildLooksUp(store: Store, node: Node, nl: NodeLink, path: Path, spine: nat -> Secret,
                                          depth: nat, q: Path)
    requires Intact(store, node) && path != [] && q != [] && Rebuild(store, node, nl, path, spine, depth).Ok?
    ensures var (node', hashes) := Rebuild(store, node, nl, path, spine, depth).value;
            var found := Lookup(node', q);
            if q == path then found == Some(nl)
            else if path <= q then found == Below(nl, q[|path|..])
            else if q <= path then found.Some? && Opened(found.value).Some? && found.value.link.hash in hashes
            else found == Lookup(node, q)
    decreases |path|
  {
    if |path| > 1 {
      RebuildStep(store, node, nl, path, spine, depth);
      var child := ChildOf(node, path[0]);
      if q[0] == path[0] && |q| > 1 {
        RebuildLooksUp(store, child, nl, path[1..], spine, depth + 1, q[1..]);
        PrefixStep(path, q);
        PrefixStep(q, path);
        assert path <= q ==> q[|path|..] == q[1..][|path[1..]|..];
      }
    } else if q[0] == path[0] {
      assert path == [q[0]];
    }
  }

  lemma PrefixStep(p: Path, q: Path)
    requires p != [] && q != [] && p[0] == q[0]
    ensures p <= q <==> p[1..] <= q[1..]
    ensures p == q <==> p[1..] == q[1..]
  {
    assert p == [p[0]] + p[1..] && q == [q[0]] + q[1..];
  }

  /** Linking refines the map update: it succeeds exactly when no directory on the way is a file, the new root shows
      the updated map at every path, and the link itself is at the path. */
  lemma LinkRefinesUpdate(store: Store, node: Node, nl: NodeLink, path: Path, spine: nat -> Secret)
    requires Intact(store, node) && path != []
    ensures var r := SetLink(store, node, nl, path, spine);
            && (r.Ok? <==> !ThroughFile(node, Front(path)))
            && (r.Err? ==> r.error == PathNotNode)
            && (r.Ok?
                ==> Lookup(r.value.0, path) == Some(nl) && forall q :: Stat(r.value.0, q) == Linked(node, path, nl, q))
  {
    RebuildSucceeds(store, node, nl, path, spine, 0);
    var r := SetLink(store, node, nl, path, spine);
    if r.Ok? {
      forall q ensures Stat(r.value.0, q) == Linked(node, path, nl, q) {
        if q != [] {
          RebuildLooksUp(store, node, nl, path, spine, 0, q);
        }
      }
      RebuildLooksUp(store, node, nl, path, spine, 0, path);
    }
  }

  /** Every link of the new tree is the new one, below it, on the rebuilt spine, or an old one. */
  lemma LinkSources(store: Store, node: Node, nl: NodeLink, path: Path, spine: nat -> Secret, q: Path)
    requires Intact(store, node) && path != [] && SetLink(store, node, nl, path, spine).Ok?
    requires Lookup(SetLink(store, node, nl, path, spine).value.0, q).Some?
    ensures var (node', hashes) := SetLink(store, node, nl, path, spine).value;
            var found := Lookup(node', q).value;
            || found == nl
            || (path <= q && Opened(nl).Some? && Lookup(Opened(nl).value, q[|path|..]) == Some(found))
            || (Opened(found).Some? && found.link.hash in hashes)
            || Lookup(node, q) == Some(found)
  {
    RebuildLooksUp(store, node, nl, path, spine, 0, q);
  }

  /** The new tree is intact in the store with the new directories. */
  lemma LinkKeepsIntact(store: Store, node: Node, nl: NodeLink, path: Path, spine: nat -> Secret)
    requires Intact(store, node) && path != [] && SetLink(store, node, nl, path, spine).Ok? && Whole(store, nl)
    ensures var (node', hashes) := SetLink(store, node, nl, path, spine).value; Intact(store + hashes, node')
  {
    var (node', hashes) := SetLink(store, node, nl, path, spine).value;
    forall q | Lookup(node', q).Some? ensures Sound(store + hashes, Lookup(node', q).value) {
      LinkSources(store, node, nl, path, spine, q);
    }
  }

  /** A pin set that covers the old tree, the link, what is below it and the new directories covers the new tree. */
  lemma LinkKeepsPinned(store: Store, node: Node, nl: NodeLink, path: Path, spine: nat -> Secret, pins: set<Hash>)
    requires Intact(store, node) && path != [] && SetLink(store, node, nl, path, spine).Ok?
    requires Pinned(pins, node) && nl.link.hash in pins && (Opened(nl).Some? ==> Pinned(pins, Opened(nl).value))
    requires SetLink(store, node, nl, path, spine).value.1 <= pins
    ensures Pinned(pins, SetLink(store, node, nl, path, spine).value.0)
  {
    var (node', hashes) := SetLink(store, node, nl, path, spine).value;
    forall q | Lookup(node', q).Some? ensures Lookup(node', q).value.link.hash in pins {
      LinkSources(store, node, nl, path, spine, q);
    }
  }

  // ---------- unlinking ----------

  datatype Unlinked = Unlinked(node: Node, hashes: set<Hash>, removed: NodeLink)

  function Without(node: Node, name: string): Node {
    Node(node.links - {name})
  }

  /** Takes a link out of its directory and rebuilds the spine above it. */
  function Unlink(store: Store, entry: Node, path: Path, own: Secret, spine: nat -> Secret): Result<Unlinked> {
    if path == [] then Err(RootError) else
    var found := GetNodeAt(store, entry, Front(path));
    if found.Err? then Err(found.error)
    else if Name(path) !in found.value.links then Err(PathNotFound)
    else
      var removed := found.value.links[Name(path)];
      var parent := Without(found.value, Name(path));
      var link := SealNode(parent, own);
      if Front(path) == [] then Ok(Unlinked(parent, {link.hash}, removed))
      else
        var r := SetLink(store + {link.hash}, entry, Dir(link, own), Front(path), spine);
        if r.Err? then Err(r.error) else Ok(Unlinked(r.value.0, r.value.1 + {link.hash}, removed))
  }

  /** What unlinking writes before it rebuilds the spine. */
  function UnlinkPuts(store: Store, entry: Node, path: Path, own: Secret): set<Hash> {
    if path == [] then {} else
    var found := GetNodeAt(store, entry, Front(path));
    if found.Err? || Name(path) !in found.value.links then {}
    else {SealNode(Without(found.value, Name(path)), own).hash}
  }

  /** The map after removing a path: nothing at and below it, everything else as before. */
  function Removed(node: Node, path: Path, q: Path): Option<Entry> {
    if path <= q then None else Stat(node, q)
  }

  lemma WithoutLooksUp(node: Node, name: string, q: Path)
    ensures Lookup(Without(node, name), q) == if q != [] && q[0] == name then None else Lookup(node, q)
  {}

  lemma WithoutStaysWhole(store: Store, node: Node, name: string, pins: set<Hash>)
    requires Intact(store, node)
    ensures Intact(store, Without(node, name))
    ensures Pinned(pins, node) ==> Pinned(pins, Without(node, name))
  {
    forall q | Lookup(Without(node, name), q).Some?
      ensures Lookup(node, q) == Lookup(Without(node, name), q)
    {
      WithoutLooksUp(node, name, q);
    }
  }

  lemma MoreStoreIntact(store: Store, more: Store, node: Node)
    requires Intact(store, node) && store <= more
    ensures Intact(more, node)
  {}

  lemma {:induction false} FolderAboveNotThroughFile(store: Store, node: Node, path: Path)
    requires Intact(store, node) && path != [] && Stat(node, path) == Some(Folder)
    ensures !ThroughFile(node, Front(path))
  {
    if |path| > 1 {
      assert Front(path)[1..] == Front(path[1..]) && Front(path)[0] == path[0];
      IntactChild(store, node, path[0]);
      FolderAboveNotThroughFile(store, Opened(node.links[path[0]]).value, path[1..]);
    }
  }

  /** Unlinking refines removal from the map: it succeeds exactly when the path names something, and then only what is
      at or below the path is gone. */
  lemma UnlinkRefinesRemoval(store: Store, entry: Node, path: Path, own: Secret, spine: nat -> Secret)
    requires Intact(store, entry)
    ensures var r := Unlink(store, entry, path, own, spine);
            && (r.Ok? <==> Lookup(entry, path).Some?)
            && (r.Err? ==> r.error == if path == [] then RootError
                                      else if BelowFile(entry, path) then CodecError
                                      else PathNotFound)
            && (r.Ok?
                ==> r.value.removed == Lookup(entry, path).value
                    && forall q :: Stat(r.value.node, q) == Removed(entry, path, q))
  {
    LookupLast(store, entry, path);
    if Lookup(entry, path).Some? {
      UnlinkShows(store, entry, path, own, spine);
    }
  }

  lemma UnlinkShows(store: Store, entry: Node, path: Path, own: Secret, spine: nat -> Secret)
    requires Intact(store, entry) && path != [] && Lookup(entry, path).Some?
    ensures var r := Unlink(store, entry, path, own, spine);
            r.Ok? && r.value.removed == Lookup(entry, path).value
            && forall q :: Stat(r.value.node, q) == Removed(entry, path, q)
  {
    LookupLast(store, entry, path);
    WalkFinds(store, entry, Front(path));
    var found := GetNodeAt(store, entry, Front(path)).value;
    var parent := Without(found, Name(path));
    var nl := Dir(SealNode(parent, own), own);
    var more := store + {nl.link.hash};
    if Front(path) != [] {
      MoreStoreIntact(store, more, entry);
      FolderAboveNotThroughFile(store, entry, Front(path));
      LinkRefinesUpdate(more, entry, nl, Front(path), spine);
    }
    forall q ensures Stat(Unlink(store, entry, path, own, spine).value.node, q) == Removed(entry, path, q) {
      UnlinkAt(entry, found, path, own, q);
    }
  }

  /** At one path: relinking the parent without the name shows the removal. */
  lemma UnlinkAt(entry: Node, found: Node, path: Path, own: Secret, q: Path)
    requires path != [] && Stat(entry, Front(path)) == Some(Folder)
    requires forall rest :: rest != [] ==> Lookup(found, rest) == Lookup(entry, Front(path) + rest)
    ensures var parent := Without(found, Name(path));
            && (Front(path) == [] ==> Stat(parent, q) == Removed(entry, path, q))
            && (Front(path) != []
                ==> Linked(entry, Front(path), Dir(SealNode(parent, own), own), q) == Removed(entry, path, q))
  {
    var front := Front(path);
    if front <= q {
      var rest := q[|front|..];
      assert q == front + rest;
      BelowFront(path, rest);
      if rest != [] {
        UnlinkBelow(entry, found, path, rest);
      } else {
        assert q == front;
      }
    } else if q <= front {
      FolderPrefix(entry, front, q);
    } else {
      assert front <= path;
    }
  }

  /** A path is below another exactly when it goes on with the other's name in the other's directory. */
  lemma BelowFront(path: Path, rest: Path)
    requires path != []
    ensures path <= Front(path) + rest <==> rest != [] && rest[0] == Name(path)
  {
    assert path == Front(path) + [Name(path)];
  }

  /** Below the directory that lost the name. */
  lemma UnlinkBelow(entry: Node, found: Node, path: Path, rest: Path)
    requires path != [] && rest != [] && Lookup(found, rest) == Lookup(entry, Front(path) + rest)
    ensures Stat(Without(found, Name(path)), rest)
            == if rest[0] == Name(path) then None else Stat(entry, Front(path) + rest)
  {
    WithoutLooksUp(found, Name(path), rest);
  }

  /** What is above a folder is a folder. */
  lemma {:induction false} FolderPrefix(node: Node, path: Path, q: Path)
    requires Stat(node, path) == Some(Folder) && q <= path
    ensures Stat(node, q) == Some(Folder)
  {
    if q != [] && q != path {
      var nl := node.links[path[0]];
      assert q[0] == path[0] && q[1..] <= path[1..];
      if |q| == 1 {
        assert nl.Dir?;
      } else {
        FolderPrefix(Opened(nl).value, path[1..], q[1..]);
      }
    }
  }

  lemma UnlinkKeepsIntact(store: Store, entry: Node, path: Path, own: Secret, spine: nat -> Secret)
    requires Intact(store, entry) && Unlink(store, entry, path, own, spine).Ok?
    ensures var u := Unlink(store, entry, path, own, spine).value; Intact(store + u.hashes, u.node)
  {
    WalkFinds(store, entry, Front(path));
    var found := GetNodeAt(store, entry, Front(path)).value;
    WithoutStaysWhole(store, found, Name(path), {});
    var parent := Without(found, Name(path));
    var nl := Dir(SealNode(parent, own), own);
    var more := store + {nl.link.hash};
    MoreStoreIntact(store, more, parent);
    if Front(path) != [] {
      MoreStoreIntact(store, more, entry);
      LinkKeepsIntact(more, entry, nl, Front(path), spine);
      assert more + SetLink(more, entry, nl, Front(path), spine).value.1
          == store + Unlink(store, entry, path, own, spine).value.hashes;
    }
  }

  lemma UnlinkKeepsPinned(store: Store, entry: Node, path: Path, own: Secret, spine: nat -> Secret, pins: set<Hash>)
    requires Intact(store, entry) && Unlink(store, entry, path, own, spine).Ok?
    requires Pinned(pins, entry) && Unlink(store, entry, path, own, spine).value.hashes <= pins
    ensures Pinned(pins, Unlink(store, entry, path, own, spine).value.node)
  {
    WalkFinds(store, entry, Front(path));
    var found := GetNodeAt(store, entry, Front(path)).value;
    assert Pinned(pins, found);
    WithoutStaysWhole(store, found, Name(path), pins);
    if Front(path) != [] {
      var nl := Dir(SealNode(Without(found, Name(path)), own), own);
      MoreStoreIntact(store, store + {nl.link.hash}, entry);
      LinkKeepsPinned(store + {nl.link.hash}, entry, nl, Front(path), spine, pins);
    }
  }
}
