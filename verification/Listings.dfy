/** Deep listing: the finite map from paths to links that a tree stands for. */
module Listings {
  import opened Content
  import opened Trees
  import opened BlobTrees

  /** The listed paths are exactly the paths that name something, each with its link. */
  ghost predicate ListsExactly(items: map<Path, NodeLink>, node: Node) {
    forall q :: if q in items then Lookup(node, q) == Some(items[q]) else Lookup(node, q).None?
  }

  function Prefixed(name: string, items: map<Path, NodeLink>): map<Path, NodeLink> {
    map q | q in (set r | r in items :: [name] + r) :: items[q[1..]]
  }

  lemma PrefixedHolds(name: string, items: map<Path, NodeLink>, q: Path)
    ensures q in Prefixed(name, items) <==> q != [] && q[0] == name && q[1..] in items
    ensures q in Prefixed(name, items) ==> Prefixed(name, items)[q] == items[q[1..]]
  {
    if q != [] && q[0] == name && q[1..] in items {
      assert q == [name] + q[1..];
    }
  }

  /** The listing so far: exact for the names that are done, empty for the rest. */
  ghost predicate ListsDone(items: map<Path, NodeLink>, node: Node, rest: set<string>) {
    forall q :: if q in items then q != [] && q[0] !in rest && Lookup(node, q) == Some(items[q])
                else q == [] || q[0] in rest || Lookup(node, q).None?
  }

  /** A missing directory is reported as a path that is no directory. */
  function ListError(e: MountError): MountError {
    if e == LinkNotFound then PathNotNode else e
  }

  /** A directory below the node does not open, with this error. */
  ghost predicate BrokenAt(store: Store, node: Node, e: MountError, q: Path) {
    match Lookup(node, q)
    case Some(Dir(link, secret)) =>
      var child := GetNode(store, Dir(link, secret));
      child.Err? && e == ListError(child.error)
    case _ => false
  }

  ghost predicate Broken(store: Store, node: Node, e: MountError) {
    exists q :: BrokenAt(store, node, e, q)
  }

  lemma BrokenChild(store: Store, node: Node, name: string, e: MountError)
    requires name in node.links && node.links[name].Dir?
    ensures var child := GetNode(store, node.links[name]);
            if child.Err? then Broken(store, node, ListError(child.error))
            else Broken(store, child.value, e) ==> Broken(store, node, e)
  {
    var child := GetNode(store, node.links[name]);
    LookupStep(node, name, []);
    if child.Err? {
      assert BrokenAt(store, node, ListError(child.error), [name]);
    } else if Broken(store, child.value, e) {
      var q :| BrokenAt(store, child.value, e, q);
      LookupStep(node, name, q);
      assert BrokenAt(store, node, e, [name] + q);
    }
  }

  lemma IntactIsNotBroken(store: Store, node: Node, e: MountError)
    requires Intact(store, node)
    ensures !Broken(store, node, e)
  {
    forall q ensures !BrokenAt(store, node, e, q) {
      assert Lookup(node, q).Some? ==> Sound(store, Lookup(node, q).value);
    }
  }

  /** Lists every child, and below every directory everything in it. The listing is exact, and it fails only with the
      error of a directory that does not open. */
  method LsDeep(blobs: BlobsStore, node: Node) returns (r: Result<map<Path, NodeLink>>)
    ensures r.Ok? ==> ListsExactly(r.value, node)
    ensures r.Err? ==> Broken(blobs.present, node, r.error)
    decreases node
  {
    var items: map<Path, NodeLink> := map[];
    var rest := node.links.Keys;
    while rest != {}
      invariant rest <= node.links.Keys
      invariant ListsDone(items, node, rest)
      decreases rest
    {
      var name :| name in rest;
      var nl := node.links[name];
      var below: map<Path, NodeLink> := map[];
      if nl.Dir? {
        var child := GetNode(blobs.present, nl);
        if child.Err? {
          BrokenChild(blobs.present, node, name, child.error);
          return Err(ListError(child.error));
        }
        var sub := LsDeep(blobs, child.value);
        if sub.Err? {
          BrokenChild(blobs.present, node, name, sub.error);
          return Err(sub.error);
        }
        below := sub.value;
      }
      OneMoreName(items, node, rest, name, below);
      items := items + map[[name] := nl] + Prefixed(name, below);
      rest := rest - {name};
    }
    return Ok(items);
  }

  /** The listed paths, taken from the base, are exactly the paths below the base that name something. */
  ghost predicate ListsBelow(items: map<Path, NodeLink>, node: Node, base: Path) {
    forall q :: if q in items then q != [] && Lookup(node, base + q) == Some(items[q])
                else q == [] || Lookup(node, base + q).None?
  }

  /** Lists everything below a base path, by paths relative to it. */
  method LsDeepAt(blobs: BlobsStore, entry: Node, base: Path) returns (r: Result<map<Path, NodeLink>>)
    ensures Intact(blobs.present, entry) ==>
              && (r.Ok? <==> Stat(entry, base) == Some(Folder))
              && (r.Ok? ==> ListsBelow(r.value, entry, base))
              && (r.Err? ==> r.error == if ThroughFile(entry, base) then CodecError else PathNotFound)
  {
    var node := GetNodeAtPath(blobs, entry, base);
    if Intact(blobs.present, entry) {
      WalkFinds(blobs.present, entry, base);
    }
    if node.Err? {
      return Err(ListError(node.error));
    }
    r := LsDeep(blobs, node.value);
    if Intact(blobs.present, entry) && r.Err? {
      IntactIsNotBroken(blobs.present, node.value, r.error);
    }
  }

  lemma OneMoreName(items: map<Path, NodeLink>, node: Node, rest: set<string>, name: string, below: map<Path, NodeLink>)
    requires ListsDone(items, node, rest) && name in rest && name in node.links
    requires if node.links[name].Dir?
             then Opened(node.links[name]).Some? && ListsExactly(below, Opened(node.links[name]).value)
             else below == map[]
    ensures ListsDone(items + map[[name] := node.links[name]] + Prefixed(name, below), node, rest - {name})
  {
    var more := items + map[[name] := node.links[name]] + Prefixed(name, below);
    forall q ensures if q in more then q != [] && q[0] !in rest - {name} && Lookup(node, q) == Some(more[q])
                     else q == [] || q[0] in rest - {name} || Lookup(node, q).None?
    {
      PrefixedHolds(name, below, q);
      if q != [] && q[0] == name {
        assert q !in items;
        if |q| == 1 {
          assert q == [name] && Lookup(node, q) == Some(node.links[name]);
          assert q[1..] == [] && (node.links[name].Dir? ==> Lookup(Opened(node.links[name]).value, []).None?);
        } else if node.links[name].Dir? {
          assert Lookup(node, q) == Lookup(Opened(node.links[name]).value, q[1..]);
        }
      }
    }
  }
}
