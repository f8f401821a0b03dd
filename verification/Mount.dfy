/** The mount object: the fields that each operation updates in place. Each method is proved against its step. */
module MountObjects {
  import opened Content
  import opened PathOps
  import opened PathOpLogs
  import opened Trees
  import opened TreeUpdates
  import opened BlobTrees
  import opened Mounts

  class Mount {
    var link: Link
    var manifest: Manifest
    var entry: Node
    var pins: set<Hash>
    var height: nat
    const opsLog: PathOpLog
    const key: SecretKey
    const blobs: BlobsStore

    ghost function State(): MountState
      reads this, opsLog
    {
      MountState(link, manifest, entry, pins, height, opsLog.Value(), key)
    }

    constructor FromState(m: MountState, blobs: BlobsStore)
      ensures State() == m && this.blobs == blobs && fresh(opsLog)
    {
      link, manifest, entry, pins, height := m.link, m.manifest, m.entry, m.pins, m.height;
      opsLog := new PathOpLog.FromValue(m.ops);
      key := m.key;
      this.blobs := blobs;
    }

    method Add(path: Path, bytes: seq<bv8>, own: Secret, spine: nat -> Secret) returns (r: Result<()>)
      modifies this, opsLog, blobs
      ensures Outcome(r, State(), blobs.present) == AddFile(old(State()), old(blobs.present), path, bytes, own, spine)
    {
      var hash := blobs.Put(Sealed(own, FilePlain(bytes)));
      var fileLink := Link(RawCodec, hash);
      var root := SetNodeLinkAtPath(blobs, entry, Data(fileLink, own), path, spine);
      if root.Err? {
        return Err(root.error);
      }
      AdoptRoot(root.value.0);
      pins := pins + {hash} + set h | h in root.value.1;
      var _ := opsLog.RecordOperation(key.public, OpType.Add, path, Some(fileLink), false);
      return Ok(());
    }

    /** Reads the new root back from the store. */
    method AdoptRoot(root: NodeLink)
      requires GetNode(blobs.present, root).Ok?
      modifies this`entry
      ensures entry == GetNode(blobs.present, root).value
    {
      entry := GetNode(blobs.present, root).value;
    }

    /** Takes a link out of the tree: the common part of removing and moving. */
    method TakeOut(path: Path, own: Secret, spine: nat -> Secret) returns (r: Result<NodeLink>)
      modifies this`entry, this`pins, blobs
      ensures var u := Unlink(old(blobs.present), old(entry), path, own, spine);
              var puts := old(blobs.present) + UnlinkPuts(old(blobs.present), old(entry), path, own);
              if u.Err? then r == Err(u.error) && entry == old(entry) && pins == old(pins) && blobs.present == puts
              else r == Ok(u.value.removed) && entry == u.value.node && pins == old(pins) + u.value.hashes
                   && blobs.present == puts + u.value.hashes
    {
      if path == [] {
        return Err(RootError);
      }
      var found := GetNodeAtPath(blobs, entry, Front(path));
      if found.Err? {
        return Err(found.error);
      }
      if Name(path) !in found.value.links {
        return Err(PathNotFound);
      }
      var removed := found.value.links[Name(path)];
      var parent := Node(found.value.links - {Name(path)});
      var hash := blobs.Put(Sealed(own, NodePlain(parent)));
      if Front(path) == [] {
        entry := parent;
        pins := pins + {hash};
      } else {
        var root := SetNodeLinkAtPath(blobs, entry, Dir(Link(RawCodec, hash), own), Front(path), spine);
        if root.Err? {
          return Err(root.error);
        }
        AdoptRoot(root.value.0);
        pins := pins + {hash} + set h | h in root.value.1;
      }
      return Ok(removed);
    }

    method Rm(path: Path, own: Secret, spine: nat -> Secret) returns (r: Result<()>)
      modifies this, opsLog, blobs
      ensures Outcome(r, State(), blobs.present) == RemovePath(old(State()), old(blobs.present), path, own, spine)
    {
      var removed := TakeOut(path, own, spine);
      if removed.Err? {
        return Err(removed.error);
      }
      var _ := opsLog.RecordOperation(key.public, Remove, path, None, removed.value.Dir?);
      return Ok(());
    }

    method MkdirAt(path: Path, own: Secret, spine: nat -> Secret) returns (r: Result<()>)
      modifies this, opsLog, blobs
      ensures Outcome(r, State(), blobs.present) == MakeDir(old(State()), old(blobs.present), path, own, spine)
    {
      if path == [] {
        return Err(RootError);
      }
      var parent := Ok(entry);
      if Front(path) != [] {
        parent := GetNodeAtPath(blobs, entry, Front(path));
        if parent == Err(PathNotFound) {
          parent := Ok(EMPTY_NODE);
        }
      }
      if parent.Err? {
        return Err(parent.error);
      }
      if Name(path) in parent.value.links {
        return Err(PathAlreadyExists);
      }
      var hash := blobs.Put(Sealed(own, NodePlain(EMPTY_NODE)));
      var root := SetNodeLinkAtPath(blobs, entry, Dir(Link(RawCodec, hash), own), path, spine);
      if root.Err? {
        return Err(root.error);
      }
      AdoptRoot(root.value.0);
      pins := pins + {hash} + set h | h in root.value.1;
      var _ := opsLog.RecordOperation(key.public, Mkdir, path, None, true);
      return Ok(());
    }

    method Mv(from: Path, to: Path, own: Secret, spineOut: nat -> Secret, spineIn: nat -> Secret)
      returns (r: Result<()>)
      modifies this, opsLog, blobs
      ensures Outcome(r, State(), blobs.present)
              == Move(old(State()), old(blobs.present), from, to, own, spineOut, spineIn)
    {
      if from <= to {
        return Err(MoveIntoSelf);
      }
      var nl := Get(blobs.present, entry, from);
      if nl.Err? {
        return Err(nl.error);
      }
      if Get(blobs.present, entry, to).Ok? {
        return Err(PathAlreadyExists);
      }
      var removed := TakeOut(from, own, spineOut);
      if removed.Err? {
        return Err(removed.error);
      }
      var root := SetNodeLinkAtPath(blobs, entry, nl.value, to, spineIn);
      if root.Err? {
        return Err(root.error);
      }
      AdoptRoot(root.value.0);
      pins := pins + set h | h in root.value.1;
      var _ := opsLog.RecordOperation(key.public, OpType.Mv(from), to, None, nl.value.Dir?);
      return Ok(());
    }

    /** A new owner, with a placeholder secret until the next save. */
    method InviteOwner(peer: PublicKey)
      modifies this`manifest
      ensures State() == AddOwner(old(State()), peer)
    {
      manifest := manifest.(shares := manifest.shares[peer := Share(Owner, peer, Some(Wrapped(0, peer)))]);
    }

    method InviteMirror(peer: PublicKey)
      modifies this`manifest
      ensures State() == AddMirror(old(State()), peer)
    {
      manifest := manifest.(shares := manifest.shares[peer := Share(Mirror, peer, None)]);
    }

    /** Stores the operations of this version, if there are any. */
    method StoreOps(secret: Secret) returns (opsLink: Option<Link>)
      modifies blobs
      ensures opsLink == if opsLog.operations == map[] then None else Some(OpsLink(opsLog.operations, secret))
      ensures blobs.present == old(blobs.present) + if opsLink.None? then {} else {opsLink.value.hash}
    {
      opsLink := None;
      if opsLog.operations != map[] {
        var hash := blobs.Put(Sealed(secret, OpsPlain(opsLog.operations)));
        opsLink := Some(Link(RawCodec, hash));
      }
    }

    method SaveVersion(publish: bool, secret: Secret) returns (saved: Link, previous: Link, newHeight: nat)
      modifies this, opsLog, blobs
      ensures Outcome(Ok(()), State(), blobs.present) == Save(old(State()), old(blobs.present), publish, secret)
      ensures saved == link && previous == old(link) && newHeight == height == old(height) + 1
      ensures entry == old(entry) && pins == old(pins)
      ensures opsLog.operations == map[] && opsLog.localClock == old(opsLog.localClock)
    {
      previous, newHeight := link, height + 1;
      var entryHash := blobs.Put(Sealed(secret, NodePlain(entry)));
      var saving := pins + {entryHash, previous.hash};
      var opsLink := StoreOps(secret);
      if opsLink.Some? {
        saving := saving + {opsLink.value.hash};
      }
      assert saving == SavedPins(old(State()), secret);
      var pinsHash := blobs.Put(PinList(saving));
      var v := manifest.(
        shares := Reshare(manifest.shares, secret),
        public := if publish then Some(secret) else None,
        pins := Link(RawCodec, pinsHash),
        previous := Some(previous),
        entry := Link(RawCodec, entryHash),
        height := newHeight,
        opsLog := opsLink);
      v := Sign(v, key);
      assert v == SavedManifest(old(State()), publish, secret);
      var hash := blobs.Put(ManifestBlob(v));
      saved := Link(CborCodec, hash);
      manifest, height, link := v, newHeight, saved;
      opsLog.ClearPreservingClock();
    }
  }

  /** Loading opens a new mount object, or fails, and changes nothing. */
  method LoadMount(link: Link, key: SecretKey, blobs: BlobsStore) returns (r: Result<()>, mount: Mount?)
    ensures match Load(blobs.present, link, key)
            case Err(e) => r == Err(e) && mount == null
            case Ok(m) => r.Ok? && mount != null && fresh(mount) && mount.State() == m && mount.blobs == blobs
  {
    mount := null;
    var manifest := GetManifest(blobs.present, link);
    if manifest.Err? {
      return Err(manifest.error), null;
    }
    var secret := SecretFor(manifest.value, key);
    if secret.Err? {
      return Err(secret.error), null;
    }
    var pins := GetPins(blobs.present, manifest.value.pins);
    if pins.Err? {
      return Err(pins.error), null;
    }
    var entry := GetNode(blobs.present, Dir(manifest.value.entry, secret.value));
    if entry.Err? {
      return Err(entry.error), null;
    }
    var ops := new PathOpLog();
    if manifest.value.opsLog.Some? {
      var stored := GetOps(blobs.present, manifest.value.opsLog.value, secret.value);
      if stored.Err? {
        return Err(stored.error), null;
      }
      ops := new PathOpLog.FromValue(Log(stored.value, 0));
      ops.RebuildClock();
    }
    mount := new Mount.FromState(
      MountState(link, manifest.value, entry.value, pins.value, manifest.value.height,
                 Log(ops.operations, ops.localClock), key),
      blobs);
    r := Ok(());
  }
}
