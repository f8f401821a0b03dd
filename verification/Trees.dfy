/** The copy-on-write file tree: directories are sealed blobs that link to child blobs. */
module Trees {
  import opened Content

  type Store = set<Hash>

  datatype MountError =
    | LinkNotFound | PathNotFound | PathNotNode | PathAlreadyExists | MoveIntoSelf
    | ShareNotFound | MirrorCannotMount | SecretError | CodecError
    | RootError      // removing, creating or moving the root
    | Panicked       // a path without a file name where the code unwraps one

  datatype Result<+T> = Ok(value: T) | Err(error: MountError)

  // ---------- blobs ----------

  function SealNode(node: Node, secret: Secret): Link {
    Link(RawCodec, HashOf(Sealed(secret, NodePlain(node))))
  }

  function SealFile(bytes: seq<bv8>, secret: Secret): Link {
    Link(RawCodec, HashOf(Sealed(secret, FilePlain(bytes))))
  }

  /** Reading a directory: the blob must be present, open under the secret and decode as a node. */
  function GetNode(store: Store, nl: NodeLink): Result<Node> {
    var blob := nl.link.hash.blob;
    if nl.link.hash !in store then Err(LinkNotFound)
    else if !blob.Sealed? || blob.secret != nl.secret then Err(SecretError)
    else if !blob.plain.NodePlain? then Err(CodecError)
    else Ok(blob.plain.node)
  }

  /** Walks down from a node; every component must be linked and decode as a directory. */
  function GetNodeAt(store: Store, node: Node, path: Path): Result<Node> {
    if path == [] then Ok(node)
    else if path[0] !in node.links then Err(PathNotFound)
    else
      var next := GetNode(store, node.links[path[0]]);
      if next.Err? then next else GetNodeAt(store, next.value, path[1..])
  }

  function Front(path: Path): Path
    requires path != []
  {
    path[..|path| - 1]
  }

  function Name(path: Path): string
    requires path != []
  {
    path[|path| - 1]
  }

  /** The link at a path. */
  function Get(store: Store, node: Node, path: Path): Result<NodeLink> {
    if path == [] then Err(PathNotFound)
    else
      var parent := GetNodeAt(store, node, Front(path));
      if parent.Err? then Err(parent.error)
      else if Name(path) !in parent.value.links then Err(PathNotFound)
      else Ok(parent.value.links[Name(path)])
  }

  /** The bytes of the file at a path. */
  function Cat(store: Store, node: Node, path: Path): Result<seq<bv8>> {
    var nl := Get(store, node, path);
    if nl.Err? then Err(nl.error)
    else if nl.value.Dir? then Err(PathNotNode)
    else
      var blob := nl.value.link.hash.blob;
      if nl.value.link.hash !in store then Err(LinkNotFound)
      else if !blob.Sealed? || blob.secret != nl.value.secret then Err(SecretError)
      else if !blob.plain.FilePlain? then Err(CodecError)
      else Ok(blob.plain.bytes)
  }

  /** The directory to go into on the way to a link: an existing one, or a new one. */
  function Descend(store: Store, node: Node, name: string): Result<Node> {
    if name !in node.links then Ok(EMPTY_NODE)
    else if node.links[name].Data? then Err(PathNotNode)
    else GetNode(store, node.links[name])
  }

  /** Rebuilds the spine: `nl` is linked at `path`, every directory on the way is written anew under a fresh secret.
      Missing directories are created; a file on the way is an error. Also gives the hashes of the directories written
      below this one. */
  function Rebuild(store: Store, node: Node, nl: NodeLink, path: Path, spine: nat -> Secret, depth: nat)
    : Result<(Node, set<Hash>)>
    requires path != []
    decreases |path|
  {
    if |path| == 1 then Ok((Node(node.links[path[0] := nl]), {}))
    else
      var child := Descend(store, node, path[0]);
      if child.Err? then Err(child.error) else
      var below := Rebuild(store, child.value, nl, path[1..], spine, depth + 1);
      if below.Err? then below else
      var link := SealNode(below.value.0, spine(depth + 1));
      Ok((Node(node.links[path[0] := Dir(link, spine(depth + 1))]), below.value.1 + {link.hash}))
  }

  /** The new root directory and the hashes of all directories written. */
  function SetLink(store: Store, node: Node, nl: NodeLink, path: Path, spine: nat -> Secret)
    : Result<(Node, set<Hash>)>
  {
    if path == [] then Err(Panicked)
    else
      var r := Rebuild(store, node, nl, path, spine, 0);
      if r.Err? then r else Ok((r.value.0, r.value.1 + {SealNode(r.value.0, spine(0)).hash}))
  }

  // ---------- the tree as a map from paths ----------

  /** The directory behind a link, if the link opens. */
  function Opened(nl: NodeLink): Option<Node> {
    var blob := nl.link.hash.blob;
    if nl.Dir? && blob.Sealed? && blob.secret == nl.secret && blob.plain.NodePlain? then Some(blob.plain.node) else None
  }

  /** What a path names in the tree below a node. */
  function Lookup(node: Node, path: Path): Option<NodeLink> {
    if path == [] || path[0] !in node.links then None
    else if |path| == 1 then Some(node.links[path[0]])
    else
      var child := Opened(node.links[path[0]]);
      if child.None? then None else Lookup(child.value, path[1..])
  }

  datatype Entry = Folder | File(link: Link, secret: Secret)

  /** What a path is: a folder, a file with its content, or nothing. The root is a folder. */
  function Stat(node: Node, path: Path): Option<Entry> {
    if path == [] then Some(Folder) else
    match Lookup(node, path)
    case None => None
    case Some(Data(link, secret)) => Some(File(link, secret))
    case Some(Dir(_, _)) => Some(Folder)
  }

  /** The path, or a directory on the way to it, is a file. */
  predicate ThroughFile(node: Node, path: Path) {
    path != [] && path[0] in node.links &&
    (node.links[path[0]].Data? ||
     (Opened(node.links[path[0]]).Some? && ThroughFile(Opened(node.links[path[0]]).value, path[1..])))
  }

  /** The blob behind a link is present and opens as what the link says it is. */
  ghost predicate Sound(store: Store, nl: NodeLink) {
    && nl.link.hash in store
    && match nl
       case Dir(_, _) => Opened(nl).Some?
       case Data(_, secret) =>
         var blob := nl.link.hash.blob;
         blob.Sealed? && blob.secret == secret && blob.plain.FilePlain?
  }

  /** Everything below a node is present and opens. */
  ghost predicate Intact(store: Store, node: Node) {
    forall q :: Lookup(node, q).Some? ==> Sound(store, Lookup(node, q).value)
  }

  /** Every hash below a node is in the set. */
  ghost predicate Pinned(pins: set<Hash>, node: Node) {
    forall q :: Lookup(node, q).Some? ==> Lookup(node, q).value.link.hash in pins
  }

  /** A directory opens exactly when its blob is here and holds it under the secret; a blob that is not here, one that
      the secret does not open, and one that holds something else each have their error. */
  lemma OpensExactlyWhen(store: Store, nl: NodeLink)
    ensures var r := GetNode(store, nl);
            && (forall n :: r == Ok(n) <==>
                  nl.link.hash in store && nl.link.hash.blob == Sealed(nl.secret, NodePlain(n)))
            && (r == Err(LinkNotFound) <==> nl.link.hash !in store)
            && (r == Err(SecretError) <==>
                  nl.link.hash in store && forall p :: nl.link.hash.blob != Sealed(nl.secret, p))
            && (r.Err? ==> r.error == LinkNotFound || r.error == SecretError || r.error == CodecError)
  {
    var blob := nl.link.hash.blob;
    assert blob.Sealed? ==> blob == Sealed(blob.secret, blob.plain);
  }

  // ---------- walking down ----------

  lemma LookupStep(node: Node, name: string, q: Path)
    requires name in node.links
    ensures Lookup(node, [name]) == Some(node.links[name])
    ensures Opened(node.links[name]).Some? && q != []
            ==> Lookup(node, [name] + q) == Lookup(Opened(node.links[name]).value, q)
  {
    assert ([name] + q)[1..] == q;
  }

  lemma IntactChild(store: Store, node: Node, name: string)
    requires Intact(store, node) && name in node.links
    ensures Sound(store, node.links[name])
    ensures node.links[name].Dir? ==> Intact(store, Opened(node.links[name]).value)
  {
    LookupStep(node, name, []);
    assert Sound(store, Lookup(node, [name]).value);
    if node.links[name].Dir? {
      var child := Opened(node.links[name]).value;
      forall q | Lookup(child, q).Some? ensures Sound(store, Lookup(child, q).value) {
        LookupStep(node, name, q);
        assert Lookup(node, [name] + q).Some?;
      }
    }
  }

  /** In an intact tree the walk succeeds exactly on folders, and what is below the folder is what is below the path. */
  lemma {:induction false} WalkFinds(store: Store, node: Node, path: Path)
    requires Intact(store, node)
    ensures GetNodeAt(store, node, path).Ok? <==> Stat(node, path) == Some(Folder)
    ensures GetNodeAt(store, node, path).Ok? ==> !ThroughFile(node, path)
    ensures GetNodeAt(store, node, path).Ok? ==>
              && Intact(store, GetNodeAt(store, node, path).value)
              && forall q :: q != [] ==> Lookup(GetNodeAt(store, node, path).value, q) == Lookup(node, path + q)
    ensures GetNodeAt(store, node, path).Err? ==>
              GetNodeAt(store, node, path).error == if ThroughFile(node, path) then CodecError else PathNotFound
  {
    if path == [] {
      assert forall q: Path :: [] + q == q;
    } else if path[0] in node.links {
      IntactChild(store, node, path[0]);
      if node.links[path[0]].Dir? {
        var child := Opened(node.links[path[0]]).value;
        WalkFinds(store, child, path[1..]);
        if GetNodeAt(store, node, path).Ok? {
          forall q: Path | q != [] ensures Lookup(GetNodeAt(store, node, path).value, q) == Lookup(node, path + q) {
            assert path + q == [path[0]] + (path[1..] + q);
            LookupStep(node, path[0], path[1..] + q);
          }
        }
      }
    }
  }

  /** A file is above the path. */
  predicate BelowFile(node: Node, path: Path) {
    path != [] && ThroughFile(node, Front(path))
  }

  lemma {:induction false} LookupLast(store: Store, node: Node, path: Path)
    requires Intact(store, node)
    ensures Get(store, node, path).Ok? <==> Lookup(node, path).Some?
    ensures Get(store, node, path).Ok? ==> Get(store, node, path).value == Lookup(node, path).value
    ensures Get(store, node, path).Err? ==>
              Get(store, node, path).error == if BelowFile(node, path) then CodecError else PathNotFound
  {
    if path != [] {
      WalkFinds(store, node, Front(path));
      assert path == Front(path) + [Name(path)];
      if GetNodeAt(store, node, Front(path)).Err? {
        UnderNonFolder(store, node, Front(path), [Name(path)]);
      }
    }
  }

  /** Nothing is below a path that is not a folder. */
  lemma {:induction false} UnderNonFolder(store: Store, node: Node, path: Path, q: Path)
    requires Intact(store, node) && Stat(node, path) != Some(Folder) && q != []
    ensures Lookup(node, path + q).None?
  {
    if path[0] in node.links {
      IntactChild(store, node, path[0]);
      assert path + q == [path[0]] + (path[1..] + q);
      LookupStep(node, path[0], path[1..] + q);
      if node.links[path[0]].Dir? {
        UnderNonFolder(store, Opened(node.links[path[0]]).value, path[1..], q);
      }
    }
  }
}
