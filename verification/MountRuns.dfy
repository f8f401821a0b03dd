/** Any number of mounts over one store: what every run keeps, and what a replica can read from the pins alone. */
module MountRuns {
  import opened Content
  import opened PathOps
  import opened Trees
  import opened TreeUpdates
  import opened Mounts
  import opened Moves

  datatype World = World(mounts: map<nat, MountState>, store: Store)

  /** Each action names the mount it works on. Secrets are whatever the generator gave. */
  datatype Action =
    | DoInit(i: nat, id: Uuid, name: string, key: SecretKey, secret: Secret)
    | DoLoad(i: nat, link: Link, key: SecretKey)
    | DoAdd(i: nat, path: Path, bytes: seq<bv8>, own: Secret, spine: nat -> Secret)
    | DoRemove(i: nat, path: Path, own: Secret, spine: nat -> Secret)
    | DoMkdir(i: nat, path: Path, own: Secret, spine: nat -> Secret)
    | DoMove(i: nat, path: Path, to: Path, own: Secret, spine: nat -> Secret, spineIn: nat -> Secret)
    | DoSave(i: nat, publish: bool, secret: Secret)
    | DoAddOwner(i: nat, peer: PublicKey)
    | DoAddMirror(i: nat, peer: PublicKey)

  function Put(w: World, i: nat, o: Outcome): World {
    World(w.mounts[i := o.mount], o.store)
  }

  /** The outcome of an action on an open mount. */
  function Act(m: MountState, store: Store, a: Action): Outcome
    requires !a.DoInit? && !a.DoLoad?
  {
    match a
    case DoAdd(_, path, bytes, own, spine) => AddFile(m, store, path, bytes, own, spine)
    case DoRemove(_, path, own, spine) => RemovePath(m, store, path, own, spine)
    case DoMkdir(_, path, own, spine) => MakeDir(m, store, path, own, spine)
    case DoMove(_, path, to, own, spine, spineIn) => Move(m, store, path, to, own, spine, spineIn)
    case DoSave(_, publish, secret) => Save(m, store, publish, secret)
    case DoAddOwner(_, peer) => Outcome(Ok(()), AddOwner(m, peer), store)
    case DoAddMirror(_, peer) => Outcome(Ok(()), AddMirror(m, peer), store)
  }

  /** Failed operations are steps too. Initialising and a successful load open a mount; the rest need an open one. */
  function Next(w: World, a: Action): World {
    match a
    case DoInit(i, id, name, key, secret) =>
      World(w.mounts[i := Init(id, name, key, secret)], w.store + InitPuts(id, name, key, secret))
    case DoLoad(i, link, key) =>
      var r := Load(w.store, link, key);
      if r.Err? then w else w.(mounts := w.mounts[i := r.value])
    case _ =>
      if a.i !in w.mounts then w else Put(w, a.i, Act(w.mounts[a.i], w.store, a))
  }

  function RunOf(actions: seq<Action>): World {
    if actions == [] then World(map[], {}) else Next(RunOf(actions[..|actions| - 1]), actions[|actions| - 1])
  }

  // ---------- the invariant ----------

  ghost predicate SharesKeyed(shares: map<PublicKey, Share>) {
    forall k :: k in shares ==> shares[k].identity == k
  }

  /** A version in the store: its pin list is there and covers its root, everything below it, its operations and the
      version before it; all of that is in the store; its height is one more than the height of the version before. */
  ghost predicate VersionOk(store: Store, v: Manifest) {
    && v.pins.hash in store && v.pins.hash.blob.PinList?
    && var pins := v.pins.hash.blob.pins;
    && pins <= store
    && v.entry.hash in pins && v.entry.hash.blob.Sealed? && v.entry.hash.blob.plain.NodePlain?
    && Pinned(pins, v.entry.hash.blob.plain.node)
    && Intact(store, v.entry.hash.blob.plain.node)
    && (v.opsLog.Some? ==> v.opsLog.value.hash in pins && v.opsLog.value.hash.blob.Sealed?
                           && v.opsLog.value.hash.blob.plain.OpsPlain? && Keyed(v.opsLog.value.hash.blob.plain.ops))
    && (v.previous.Some? ==> v.previous.value.hash in pins && v.previous.value.hash.blob.ManifestBlob?
                             && v.height == v.previous.value.hash.blob.manifest.height + 1)
    && (v.previous.None? ==> v.height == 0)
    && SharesKeyed(v.shares)
  }

  /** An open mount: its tree is intact and pinned, its pins are in the store, it stands on a stored version. */
  ghost predicate MountOk(store: Store, m: MountState) {
    && Intact(store, m.entry) && Pinned(m.pins, m.entry) && m.pins <= store
    && m.link.hash in store && m.link.hash.blob.ManifestBlob? && m.link.hash.blob.manifest.height == m.height
    && SharesKeyed(m.manifest.shares)
    && Keyed(m.ops.ops) && ClockCovers(m.ops)
  }

  ghost predicate WorldOk(w: World) {
    && (forall i :: i in w.mounts ==> MountOk(w.store, w.mounts[i]))
    && (forall v :: HashOf(ManifestBlob(v)) in w.store ==> VersionOk(w.store, v))
  }

  lemma VersionStays(store: Store, more: Store, v: Manifest)
    requires VersionOk(store, v) && store <= more
    ensures VersionOk(more, v)
  {
    MoreStoreIntact(store, more, v.entry.hash.blob.plain.node);
  }

  lemma MountStays(store: Store, more: Store, m: MountState)
    requires MountOk(store, m) && store <= more
    ensures MountOk(more, m)
  {
    MoreStoreIntact(store, more, m.entry);
  }

  ghost predicate NoNewVersions(store: Store, more: Store) {
    forall v :: HashOf(ManifestBlob(v)) in more ==> HashOf(ManifestBlob(v)) in store
  }

  /** A step that replaces one mount, only adds to the store, and adds only good versions. */
  lemma StepKeepsWorld(w: World, i: nat, m: MountState, store: Store)
    requires WorldOk(w) && w.store <= store && MountOk(store, m)
    requires forall v :: HashOf(ManifestBlob(v)) in store && HashOf(ManifestBlob(v)) !in w.store ==> VersionOk(store, v)
    ensures WorldOk(World(w.mounts[i := m], store))
  {
    forall j | j in w.mounts ensures MountOk(store, w.mounts[j]) {
      MountStays(w.store, store, w.mounts[j]);
    }
    forall v | HashOf(ManifestBlob(v)) in w.store ensures VersionOk(store, v) {
      VersionStays(w.store, store, v);
    }
  }

  // ---------- each operation ----------

  lemma RecordedOk(m: MountState, opType: OpType, path: Path, link: Option<Link>, isDir: bool)
    requires Keyed(m.ops.ops) && ClockCovers(m.ops)
    ensures Keyed(Recorded(m, opType, path, link, isDir).ops) && ClockCovers(Recorded(m, opType, path, link, isDir))
  {}

  /** The directories a link writes are no versions. */
  lemma {:induction false} RebuildWritesNodes(store: Store, node: Node, nl: NodeLink, path: Path, spine: nat -> Secret,
                                              depth: nat)
    requires path != [] && Rebuild(store, node, nl, path, spine, depth).Ok?
    ensures forall h :: h in Rebuild(store, node, nl, path, spine, depth).value.1 ==> h.blob.Sealed?
    decreases |path|
  {
    if |path| > 1 {
      RebuildWritesNodes(store, Descend(store, node, path[0]).value, nl, path[1..], spine, depth + 1);
    }
  }

  lemma LinkWritesNodes(store: Store, node: Node, nl: NodeLink, path: Path, spine: nat -> Secret)
    requires SetLink(store, node, nl, path, spine).Ok?
    ensures forall h :: h in SetLink(store, node, nl, path, spine).value.1 ==> h.blob.Sealed?
  {
    RebuildWritesNodes(store, node, nl, path, spine, 0);
  }

  lemma UnlinkWritesNodes(store: Store, entry: Node, path: Path, own: Secret, spine: nat -> Secret)
    requires Unlink(store, entry, path, own, spine).Ok?
    ensures forall h :: h in Unlink(store, entry, path, own, spine).value.hashes ==> h.blob.Sealed?
  {
    if Front(path) != [] {
      var found := GetNodeAt(store, entry, Front(path)).value;
      var link := SealNode(Without(found, Name(path)), own);
      LinkWritesNodes(store + {link.hash}, entry, Dir(link, own), Front(path), spine);
    }
  }

  /** Linking something whole and pinned keeps a mount in order. */
  lemma LinkKeepsMount(store: Store, m: MountState, nl: NodeLink, path: Path, spine: nat -> Secret, pins: set<Hash>,
                       ops: Log)
    requires MountOk(store, m) && SetLink(store, m.entry, nl, path, spine).Ok?
    requires Whole(store, nl) && (Opened(nl).Some? ==> Pinned(pins, Opened(nl).value))
    requires m.pins + {nl.link.hash} <= pins <= store && Keyed(ops.ops) && ClockCovers(ops)
    ensures var (node, hashes) := SetLink(store, m.entry, nl, path, spine).value;
            && MountOk(store + hashes, m.(entry := node, pins := pins + hashes, ops := ops))
            && NoNewVersions(store, store + hashes)
  {
    var (node, hashes) := SetLink(store, m.entry, nl, path, spine).value;
    LinkKeepsIntact(store, m.entry, nl, path, spine);
    LinkKeepsPinned(store, m.entry, nl, path, spine, pins + hashes);
    LinkWritesNodes(store, m.entry, nl, path, spine);
  }

  lemma AddKeepsMount(store: Store, m: MountState, path: Path, bytes: seq<bv8>, own: Secret, spine: nat -> Secret)
    requires MountOk(store, m)
    ensures var o := AddFile(m, store, path, bytes, own, spine);
            store <= o.store && MountOk(o.store, o.mount) && NoNewVersions(store, o.store)
  {
    var link := SealFile(bytes, own);
    var stored := store + {link.hash};
    MountStays(store, stored, m);
    if SetLink(stored, m.entry, Data(link, own), path, spine).Ok? {
      RecordedOk(m, Add, path, Some(link), false);
      LinkKeepsMount(stored, m, Data(link, own), path, spine, m.pins + {link.hash},
                     Recorded(m, Add, path, Some(link), false));
    }
  }

  lemma MkdirKeepsMount(store: Store, m: MountState, path: Path, own: Secret, spine: nat -> Secret)
    requires MountOk(store, m)
    ensures var o := MakeDir(m, store, path, own, spine);
            store <= o.store && MountOk(o.store, o.mount) && NoNewVersions(store, o.store)
  {
    var link := SealNode(EMPTY_NODE, own);
    var stored := store + {link.hash};
    MountStays(store, stored, m);
    if MakeDir(m, store, path, own, spine).result.Ok? {
      RecordedOk(m, Mkdir, path, None, true);
      LinkKeepsMount(stored, m, Dir(link, own), path, spine, m.pins + {link.hash},
                     Recorded(m, Mkdir, path, None, true));
    }
  }

  /** Unlinking, with or without what it had already written. */
  lemma UnlinkKeepsMount(store: Store, m: MountState, path: Path, own: Secret, spine: nat -> Secret, ops: Log)
    requires MountOk(store, m) && Unlink(store, m.entry, path, own, spine).Ok? && Keyed(ops.ops) && ClockCovers(ops)
    ensures var u := Unlink(store, m.entry, path, own, spine).value;
            var more := store + UnlinkPuts(store, m.entry, path, own) + u.hashes;
            MountOk(more, m.(entry := u.node, pins := m.pins + u.hashes, ops := ops)) && NoNewVersions(store, more)
  {
    var u := Unlink(store, m.entry, path, own, spine).value;
    UnlinkKeepsIntact(store, m.entry, path, own, spine);
    UnlinkKeepsPinned(store, m.entry, path, own, spine, m.pins + u.hashes);
    MoreStoreIntact(store + u.hashes, store + UnlinkPuts(store, m.entry, path, own) + u.hashes, u.node);
    UnlinkWritesNodes(store, m.entry, path, own, spine);
  }

  lemma RemoveKeepsMount(store: Store, m: MountState, path: Path, own: Secret, spine: nat -> Secret)
    requires MountOk(store, m)
    ensures var o := RemovePath(m, store, path, own, spine);
            store <= o.store && MountOk(o.store, o.mount) && NoNewVersions(store, o.store)
  {
    var u := Unlink(store, m.entry, path, own, spine);
    if u.Ok? {
      RecordedOk(m, Remove, path, None, u.value.removed.Dir?);
      UnlinkKeepsMount(store, m, path, own, spine, Recorded(m, Remove, path, None, u.value.removed.Dir?));
    } else {
      MountStays(store, store + UnlinkPuts(store, m.entry, path, own), m);
    }
  }

  lemma MoveKeepsMount(store: Store, m: MountState, from: Path, to: Path, own: Secret, spineOut: nat -> Secret,
                       spineIn: nat -> Secret)
    requires MountOk(store, m)
    ensures var o := Move(m, store, from, to, own, spineOut, spineIn);
            store <= o.store && MountOk(o.store, o.mount) && NoNewVersions(store, o.store)
  {
    if MayMove(m.entry, from, to) {
      LookupLast(store, m.entry, from);
      if to != [] {
        LookupLast(store, m.entry, to);
      }
      UnlinkRefinesRemoval(store, m.entry, from, own, spineOut);
      MoveSecondHalf(store, m, from, to, own, spineOut, spineIn);
    } else {
      RefusedMoveIsNoOp(m, store, from, to, own, spineOut, spineIn);
    }
  }

  lemma MoveSecondHalf(store: Store, m: MountState, from: Path, to: Path, own: Secret, spineOut: nat -> Secret,
                       spineIn: nat -> Secret)
    requires MountOk(store, m) && MayMove(m.entry, from, to)
    requires Get(store, m.entry, from) == Ok(Lookup(m.entry, from).value) && Get(store, m.entry, to).Err?
    requires Unlink(store, m.entry, from, own, spineOut).Ok?
    ensures var o := Move(m, store, from, to, own, spineOut, spineIn);
            store <= o.store && MountOk(o.store, o.mount) && NoNewVersions(store, o.store)
  {
    var u, nl := Unlink(store, m.entry, from, own, spineOut).value, Lookup(m.entry, from).value;
    var more := store + UnlinkPuts(store, m.entry, from, own) + u.hashes;
    UnlinkKeepsMount(store, m, from, own, spineOut, m.ops);
    FoundIsWhole(store, m.entry, from, m.pins);
    if nl.Dir? {
      MoreStoreIntact(store, more, Opened(nl).value);
    }
    var taken := m.(entry := u.node, pins := m.pins + u.hashes);
    if SetLink(more, u.node, nl, to, spineIn).Ok? {
      RecordedOk(m, Mv(from), to, None, nl.Dir?);
      LinkKeepsMount(more, taken, nl, to, spineIn, taken.pins, Recorded(m, Mv(from), to, None, nl.Dir?));
    }
  }

  // ---------- versions ----------

  lemma SaveWritesVersion(store: Store, m: MountState, publish: bool, secret: Secret)
    requires MountOk(store, m)
    ensures var o := Save(m, store, publish, secret);
            store <= o.store && MountOk(o.store, o.mount) && VersionOk(o.store, SavedManifest(m, publish, secret))
  {
    var o, v := Save(m, store, publish, secret), SavedManifest(m, publish, secret);
    MoreStoreIntact(store, o.store, m.entry);
    assert Pinned(SavedPins(m, secret), m.entry);
  }

  /** A save writes one version. */
  lemma SaveWritesOneVersion(store: Store, m: MountState, publish: bool, secret: Secret, v: Manifest)
    requires HashOf(ManifestBlob(v)) in Save(m, store, publish, secret).store && HashOf(ManifestBlob(v)) !in store
    ensures v == SavedManifest(m, publish, secret)
  {}

  lemma SaveKeepsWorld(w: World, i: nat, publish: bool, secret: Secret)
    requires WorldOk(w) && i in w.mounts
    ensures WorldOk(Put(w, i, Save(w.mounts[i], w.store, publish, secret)))
  {
    SaveWritesVersion(w.store, w.mounts[i], publish, secret);
    var o := Save(w.mounts[i], w.store, publish, secret);
    forall v | HashOf(ManifestBlob(v)) in o.store && HashOf(ManifestBlob(v)) !in w.store ensures VersionOk(o.store, v) {
      SaveWritesOneVersion(w.store, w.mounts[i], publish, secret, v);
    }
    StepKeepsWorld(w, i, o.mount, o.store);
  }

  lemma InitKeepsWorld(w: World, i: nat, id: Uuid, name: string, key: SecretKey, secret: Secret)
    requires WorldOk(w)
    ensures WorldOk(World(w.mounts[i := Init(id, name, key, secret)], w.store + InitPuts(id, name, key, secret)))
  {
    StepKeepsWorld(w, i, Init(id, name, key, secret), w.store + InitPuts(id, name, key, secret));
  }

  lemma LoadGivesMount(store: Store, link: Link, key: SecretKey)
    requires Load(store, link, key).Ok? && VersionOk(store, link.hash.blob.manifest)
    ensures MountOk(store, Load(store, link, key).value)
  {}

  lemma LoadKeepsWorld(w: World, i: nat, link: Link, key: SecretKey)
    requires WorldOk(w) && Load(w.store, link, key).Ok?
    ensures WorldOk(w.(mounts := w.mounts[i := Load(w.store, link, key).value]))
  {
    assert link.hash == HashOf(ManifestBlob(link.hash.blob.manifest));
    LoadGivesMount(w.store, link, key);
    StepKeepsWorld(w, i, Load(w.store, link, key).value, w.store);
  }

  lemma TreeActionKeepsMount(m: MountState, store: Store, a: Action)
    requires MountOk(store, m) && !a.DoInit? && !a.DoLoad? && !a.DoSave?
    ensures var o := Act(m, store, a); store <= o.store && MountOk(o.store, o.mount) && NoNewVersions(store, o.store)
  {
    match a
    case DoAdd(_, path, bytes, own, spine) => AddKeepsMount(store, m, path, bytes, own, spine);
    case DoRemove(_, path, own, spine) => RemoveKeepsMount(store, m, path, own, spine);
    case DoMkdir(_, path, own, spine) => MkdirKeepsMount(store, m, path, own, spine);
    case DoMove(_, path, to, own, spine, spineIn) => MoveKeepsMount(store, m, path, to, own, spine, spineIn);
    case DoAddOwner(_, peer) =>
    case DoAddMirror(_, peer) =>
  }

  lemma TreeActionKeepsWorld(w: World, a: Action)
    requires WorldOk(w) && a.i in w.mounts && !a.DoInit? && !a.DoLoad? && !a.DoSave?
    ensures WorldOk(Put(w, a.i, Act(w.mounts[a.i], w.store, a)))
  {
    TreeActionKeepsMount(w.mounts[a.i], w.store, a);
    var o := Act(w.mounts[a.i], w.store, a);
    StepKeepsWorld(w, a.i, o.mount, o.store);
  }

  lemma OpeningKeepsWorld(w: World, a: Action)
    requires WorldOk(w) && (a.DoInit? || a.DoLoad?)
    ensures WorldOk(Next(w, a))
  {
    match a
    case DoInit(i, id, name, key, secret) => InitKeepsWorld(w, i, id, name, key, secret);
    case DoLoad(i, link, key) => if Load(w.store, link, key).Ok? { LoadKeepsWorld(w, i, link, key); }
  }

  lemma NextKeepsWorld(w: World, a: Action)
    requires WorldOk(w)
    ensures WorldOk(Next(w, a))
  {
    if a.DoInit? || a.DoLoad? {
      OpeningKeepsWorld(w, a);
    } else if a.i in w.mounts {
      if a.DoSave? {
        SaveKeepsWorld(w, a.i, a.publish, a.secret);
      } else {
        TreeActionKeepsWorld(w, a);
      }
    }
  }

  /** Pin closure: in every run, every open mount is intact and pinned, and the pin list of every stored version covers
      its root, every directory and file below it, its operations and the version before it. */
  lemma {:induction false} PinsCoverEveryRun(actions: seq<Action>)
    ensures WorldOk(RunOf(actions))
  {
    if actions != [] {
      PinsCoverEveryRun(actions[..|actions| - 1]);
      NextKeepsWorld(RunOf(actions[..|actions| - 1]), actions[|actions| - 1]);
    }
  }

  // ---------- older versions ----------

  lemma StoreGrows(w: World, a: Action)
    ensures w.store <= Next(w, a).store
  {}

  lemma {:induction false} StoreGrowsAlong(actions: seq<Action>, more: seq<Action>)
    ensures RunOf(actions).store <= RunOf(actions + more).store
  {
    if more == [] {
      assert actions + more == actions;
    } else {
      var front := more[..|more| - 1];
      StoreGrowsAlong(actions, front);
      assert (actions + more)[..|actions + more| - 1] == actions + front;
      StoreGrows(RunOf(actions + front), more[|more| - 1]);
    }
  }

  /** No later action disturbs a tree: every root that was intact at some moment of a run reads the same, at every path,
      at every later moment. */
  lemma OldRootsKeepReading(actions: seq<Action>, more: seq<Action>, root: Node, path: Path)
    requires Intact(RunOf(actions).store, root)
    ensures Intact(RunOf(actions + more).store, root)
    ensures Cat(RunOf(actions + more).store, root, path) == Cat(RunOf(actions).store, root, path)
  {
    StoreGrowsAlong(actions, more);
    MoreStoreIntact(RunOf(actions).store, RunOf(actions + more).store, root);
    CatIsLookup(RunOf(actions).store, root, path);
    CatIsLookup(RunOf(actions + more).store, root, path);
  }

  // ---------- replicas ----------

  /** Reading a file of an intact tree does not depend on the rest of the store. */
  lemma CatIsLookup(store: Store, node: Node, path: Path)
    requires Intact(store, node)
    ensures Cat(store, node, path) ==
            match Lookup(node, path)
            case None => Err(if BelowFile(node, path) then CodecError else PathNotFound)
            case Some(Dir(_, _)) => Err(PathNotNode)
            case Some(Data(link, _)) => Ok(link.hash.blob.plain.bytes)
  {
    LookupLast(store, node, path);
  }

  /** What is pinned and opens is intact wherever the pins are. */
  lemma PinsSuffice(store: Store, pins: set<Hash>, node: Node)
    requires Intact(store, node) && Pinned(pins, node)
    ensures Intact(pins, node)
  {}

  /** The blobs that loading a version needs. */
  lemma LoadNeedsPinsOnly(store: Store, replica: Store, link: Link, key: SecretKey)
    requires link.hash in store && link.hash.blob.ManifestBlob? && VersionOk(store, link.hash.blob.manifest)
    requires {link.hash, link.hash.blob.manifest.pins.hash} + link.hash.blob.manifest.pins.hash.blob.pins <= replica
    ensures Load(replica, link, key) == Load(store, link, key)
    ensures Load(store, link, key).Ok? ==>
              Load(store, link, key).value.entry == link.hash.blob.manifest.entry.hash.blob.plain.node
  {}

  lemma ReadNeedsPinsOnly(store: Store, replica: Store, node: Node, pins: set<Hash>, path: Path)
    requires Intact(store, node) && Pinned(pins, node) && pins <= replica
    ensures Cat(replica, node, path) == Cat(store, node, path)
  {
    PinsSuffice(store, pins, node);
    MoreStoreIntact(pins, replica, node);
    CatIsLookup(store, node, path);
    CatIsLookup(replica, node, path);
  }

  /** What a replica must hold of a version: its manifest, its pin list and the pinned blobs. */
  function NeededFor(link: Link): set<Hash>
    requires link.hash.blob.ManifestBlob? && link.hash.blob.manifest.pins.hash.blob.PinList?
  {
    {link.hash, link.hash.blob.manifest.pins.hash} + link.hash.blob.manifest.pins.hash.blob.pins
  }

  /** A replica that holds that much of a version, and perhaps nothing else, loads the version for every key as the
      writer does, with the same error if any, and reads the same bytes at every path. */
  lemma ReplicaReadsTheSame(actions: seq<Action>, link: Link, key: SecretKey, replica: Store)
    requires link.hash in RunOf(actions).store && link.hash.blob.ManifestBlob?
    requires link.hash.blob.manifest.pins.hash.blob.PinList? ==> NeededFor(link) <= replica
    ensures link.hash.blob.manifest.pins.hash.blob.PinList?
    ensures var store := RunOf(actions).store;
            && Load(replica, link, key) == Load(store, link, key)
            && (Load(store, link, key).Ok? ==>
                  forall path :: Cat(replica, Load(store, link, key).value.entry, path)
                                 == Cat(store, Load(store, link, key).value.entry, path))
  {
    PinsCoverEveryRun(actions);
    var store, v := RunOf(actions).store, link.hash.blob.manifest;
    assert link.hash == HashOf(ManifestBlob(v)) && VersionOk(store, v);
    var pins, node := v.pins.hash.blob.pins, v.entry.hash.blob.plain.node;
    LoadNeedsPinsOnly(store, replica, link, key);
    forall path ensures Cat(replica, node, path) == Cat(store, node, path) {
      ReadNeedsPinsOnly(store, replica, node, pins, path);
    }
  }
}
