/** The two walks over a stored tree: down to a directory, and down and up again to set a link. */
module BlobTrees {
  import opened Content
  import opened Trees

  class BlobsStore {
    var present: Store

    constructor ()
      ensures present == {}
    {
      present := {};
    }

    method Put(blob: Blob) returns (hash: Hash)
      modifies this
      ensures hash == HashOf(blob) && present == old(present) + {hash}
    {
      hash := HashOf(blob);
      present := present + {hash};
    }
  }

  /** Follows a path one component at a time. */
  method GetNodeAtPath(blobs: BlobsStore, node: Node, path: Path) returns (r: Result<Node>)
    ensures r == GetNodeAt(blobs.present, node, path)
  {
    var current := node;
    for i := 0 to |path|
      invariant GetNodeAt(blobs.present, node, path) == GetNodeAt(blobs.present, current, path[i..])
    {
      assert path[i..][1..] == path[i + 1..];
      if path[i] !in current.links {
        return Err(PathNotFound);
      }
      var next := GetNode(blobs.present, current.links[path[i]]);
      if next.Err? {
        return next;
      }
      current := next.value;
    }
    return Ok(current);
  }

  /** Each visited directory is the one to go into from the directory before it. */
  ghost predicate Visited(store: Store, visited: seq<Node>, path: Path) {
    && 0 < |visited| <= |path|
    && forall i :: 0 < i < |visited| ==> Descend(store, visited[i - 1], path[i - 1]) == Ok(visited[i])
  }

  /** Where the way down ends in an error, the rebuild from every visited directory gives that error. */
  lemma {:induction false} ErrorComesUp(store: Store, visited: seq<Node>, nl: NodeLink, path: Path,
                                        spine: nat -> Secret, i: nat, e: MountError)
    requires Visited(store, visited, path) && i < |visited| < |path|
    requires Descend(store, visited[|visited| - 1], path[|visited| - 1]) == Err(e)
    ensures Rebuild(store, visited[i], nl, path[i..], spine, i) == Err(e)
    decreases |visited| - i
  {
    assert path[i..][1..] == path[i + 1..];
    if i + 1 < |visited| {
      ErrorComesUp(store, visited, nl, path, spine, i + 1, e);
      assert Descend(store, visited[i + 1 - 1], path[i + 1 - 1]) == Ok(visited[i + 1]);
    }
  }

  /** Goes down to the parent, creating missing directories, then writes every visited directory anew from the last to
      the first. Also lists the hashes it wrote. */
  method SetNodeLinkAtPath(blobs: BlobsStore, node: Node, nl: NodeLink, path: Path, spine: nat -> Secret)
    returns (r: Result<(NodeLink, seq<Hash>)>)
    modifies blobs
    ensures match SetLink(old(blobs.present), node, nl, path, spine)
            case Err(e) => r == Err(e) && blobs.present == old(blobs.present)
            case Ok((root, hashes)) =>
              && blobs.present == old(blobs.present) + hashes
              && r.Ok? && r.value.0 == Dir(SealNode(root, spine(0)), spine(0))
              && (set h | h in r.value.1) == hashes
  {
    if path == [] {
      return Err(Panicked);
    }
    var visited := [node];
    while |visited| < |path|
      invariant Visited(blobs.present, visited, path) && visited[0] == node
    {
      var next := Descend(blobs.present, visited[|visited| - 1], path[|visited| - 1]);
      if next.Err? {
        ErrorComesUp(blobs.present, visited, nl, path, spine, 0, next.error);
        assert path[0..] == path;
        return Err(next.error);
      }
      visited := visited + [next.value];
    }
    var link, hashes := WriteSpine(blobs, visited, nl, path, spine);
    assert path[0..] == path;
    return Ok((link, hashes));
  }

  /** The way up. */
  method WriteSpine(blobs: BlobsStore, visited: seq<Node>, nl: NodeLink, path: Path, spine: nat -> Secret)
    returns (link: NodeLink, hashes: seq<Hash>)
    requires Visited(blobs.present, visited, path) && |visited| == |path|
    modifies blobs
    ensures var r := Rebuild(old(blobs.present), visited[0], nl, path[0..], spine, 0);
            && r.Ok? && link == Dir(SealNode(r.value.0, spine(0)), spine(0))
            && (set h | h in hashes) == r.value.1 + {SealNode(r.value.0, spine(0)).hash}
            && blobs.present == old(blobs.present) + (set h | h in hashes)
  {
    link, hashes := nl, [];
    ghost var store := blobs.present;
    var i := |path|;
    while i > 0
      invariant 0 <= i <= |path|
      invariant blobs.present == store + set h | h in hashes
      invariant i == |path| ==> link == nl && hashes == []
      invariant i < |path| ==>
                  var r := Rebuild(store, visited[i], nl, path[i..], spine, i);
                  && r.Ok? && link == Dir(SealNode(r.value.0, spine(i)), spine(i))
                  && (set h | h in hashes) == r.value.1 + {SealNode(r.value.0, spine(i)).hash}
    {
      i := i - 1;
      assert path[i..][1..] == path[i + 1..];
      assert i + 1 < |path| ==> Descend(store, visited[i + 1 - 1], path[i + 1 - 1]) == Ok(visited[i + 1]);
      var written := Node(visited[i].links[path[i] := link]);
      var hash := blobs.Put(Sealed(spine(i), NodePlain(written)));
      assert (set h | h in hashes + [hash]) == (set h | h in hashes) + {hash};
      hashes := hashes + [hash];
      link := Dir(SealNode(written, spine(i)), spine(i));
    }
  }
}
