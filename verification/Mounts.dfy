/** A mount as a value, and what each of its operations makes of it and of the store. */
module Mounts {
  import opened Content
  import opened PathOps
  import opened Trees
  import opened TreeUpdates

  datatype MountState = MountState(
    link: Link,
    manifest: Manifest,
    entry: Node,
    pins: set<Hash>,
    height: nat,
    ops: Log,
    key: SecretKey)

  /** The outcome of an operation: also a failed one may have written blobs. */
  datatype Outcome = Outcome(result: Result<()>, mount: MountState, store: Store)

  function Recorded(m: MountState, opType: OpType, path: Path, link: Option<Link>, isDir: bool): Log {
    Record(m.ops, m.key.public, opType, path, link, isDir)
  }

  // ---------- files and directories ----------

  function AddFile(m: MountState, store: Store, path: Path, bytes: seq<bv8>, own: Secret, spine: nat -> Secret)
    : Outcome
  {
    var link := SealFile(bytes, own);
    var stored := store + {link.hash};
    var r := SetLink(stored, m.entry, Data(link, own), path, spine);
    if r.Err? then Outcome(Err(r.error), m, stored)
    else Outcome(Ok(()),
                 m.(entry := r.value.0, pins := m.pins + {link.hash} + r.value.1,
                    ops := Recorded(m, Add, path, Some(link), false)),
                 stored + r.value.1)
  }

  function RemovePath(m: MountState, store: Store, path: Path, own: Secret, spine: nat -> Secret): Outcome {
    var u := Unlink(store, m.entry, path, own, spine);
    var stored := store + UnlinkPuts(store, m.entry, path, own);
    if u.Err? then Outcome(Err(u.error), m, stored)
    else Outcome(Ok(()),
                 m.(entry := u.value.node, pins := m.pins + u.value.hashes,
                    ops := Recorded(m, Remove, path, None, u.value.removed.Dir?)),
                 stored + u.value.hashes)
  }

  /** The parent of a new directory; one that is missing will be created. */
  function MkdirParent(m: MountState, store: Store, path: Path): Result<Node>
    requires path != []
  {
    if Front(path) == [] then Ok(m.entry) else
    var parent := GetNodeAt(store, m.entry, Front(path));
    if parent == Err(PathNotFound) then Ok(EMPTY_NODE) else parent
  }

  function MakeDir(m: MountState, store: Store, path: Path, own: Secret, spine: nat -> Secret): Outcome {
    if path == [] then Outcome(Err(RootError), m, store) else
    var parent := MkdirParent(m, store, path);
    if parent.Err? then Outcome(Err(parent.error), m, store)
    else if Name(path) in parent.value.links then Outcome(Err(PathAlreadyExists), m, store)
    else
      var link := SealNode(EMPTY_NODE, own);
      var stored := store + {link.hash};
      var r := SetLink(stored, m.entry, Dir(link, own), path, spine);
      if r.Err? then Outcome(Err(r.error), m, stored)
      else Outcome(Ok(()),
                   m.(entry := r.value.0, pins := m.pins + {link.hash} + r.value.1,
                      ops := Recorded(m, Mkdir, path, None, true)),
                   stored + r.value.1)
  }

  /** The link is taken out of its old place before it is put in the new one; if the second half fails the first half
      stays done. */
  function Move(m: MountState, store: Store, from: Path, to: Path, own: Secret, spineOut: nat -> Secret,
                spineIn: nat -> Secret): Outcome
  {
    if from <= to then Outcome(Err(MoveIntoSelf), m, store) else
    var nl := Get(store, m.entry, from);
    if nl.Err? then Outcome(Err(nl.error), m, store)
    else if Get(store, m.entry, to).Ok? then Outcome(Err(PathAlreadyExists), m, store)
    else
      var u := Unlink(store, m.entry, from, own, spineOut);
      var stored := store + UnlinkPuts(store, m.entry, from, own);
      if u.Err? then Outcome(Err(u.error), m, stored) else
      var taken := m.(entry := u.value.node, pins := m.pins + u.value.hashes);
      var without := stored + u.value.hashes;
      var r := SetLink(without, taken.entry, nl.value, to, spineIn);
      if r.Err? then Outcome(Err(r.error), taken, without)
      else Outcome(Ok(()),
                   taken.(entry := r.value.0, pins := taken.pins + r.value.1,
                          ops := Recorded(m, Mv(from), to, None, nl.value.Dir?)),
                   without + r.value.1)
  }

  // ---------- versions ----------

  function ManifestLink(m: Manifest): Link {
    Link(CborCodec, HashOf(ManifestBlob(m)))
  }

  function PinsLink(pins: set<Hash>): Link {
    Link(RawCodec, HashOf(PinList(pins)))
  }

  function OpsLink(ops: Ops, secret: Secret): Link {
    Link(RawCodec, HashOf(Sealed(secret, OpsPlain(ops))))
  }

  function Sign(m: Manifest, key: SecretKey): Manifest {
    var unsigned := m.(author := Some(key.public), signature := None);
    unsigned.(signature := Some(Signature(key.public, unsigned)))
  }

  /** Owners get the new secret wrapped for them; mirrors are left alone. */
  function Reshare(shares: map<PublicKey, Share>, secret: Secret): map<PublicKey, Share> {
    map k | k in shares ::
      if shares[k].role.Owner? then shares[k].(share := Some(Wrapped(secret, shares[k].identity))) else shares[k]
  }

  /** The pins of a new version: those of the mount, its root, the version before it and its operations. */
  function SavedPins(m: MountState, secret: Secret): set<Hash> {
    m.pins + {SealNode(m.entry, secret).hash, m.link.hash}
    + if m.ops.ops == map[] then {} else {OpsLink(m.ops.ops, secret).hash}
  }

  function SavedManifest(m: MountState, publish: bool, secret: Secret): Manifest {
    Sign(m.manifest.(
           shares := Reshare(m.manifest.shares, secret),
           public := if publish then Some(secret) else None,
           pins := PinsLink(SavedPins(m, secret)),
           previous := Some(m.link),
           entry := SealNode(m.entry, secret),
           height := m.height + 1,
           opsLog := if m.ops.ops == map[] then None else Some(OpsLink(m.ops.ops, secret))),
         m.key)
  }

  /** Writes a new version. The pins of the mount itself are not extended. */
  function Save(m: MountState, store: Store, publish: bool, secret: Secret): Outcome {
    var manifest := SavedManifest(m, publish, secret);
    var opsPut := if m.ops.ops == map[] then {} else {OpsLink(m.ops.ops, secret).hash};
    Outcome(Ok(()),
            m.(manifest := manifest, height := m.height + 1, link := ManifestLink(manifest), ops := Cleared(m.ops)),
            store + {SealNode(m.entry, secret).hash} + opsPut + {PinsLink(SavedPins(m, secret)).hash}
            + {ManifestLink(manifest).hash})
  }

  function InitialManifest(id: Uuid, name: string, key: SecretKey, secret: Secret): Manifest {
    var entry := SealNode(EMPTY_NODE, secret);
    Sign(Manifest(id, name, 0, map[key.public := Share(Owner, key.public, Some(Wrapped(secret, key.public)))], entry,
                  PinsLink({entry.hash}), None, None, None, None, None),
         key)
  }

  function Init(id: Uuid, name: string, key: SecretKey, secret: Secret): MountState {
    var manifest := InitialManifest(id, name, key, secret);
    MountState(ManifestLink(manifest), manifest, EMPTY_NODE, {SealNode(EMPTY_NODE, secret).hash}, 0, EMPTY_LOG, key)
  }

  function InitPuts(id: Uuid, name: string, key: SecretKey, secret: Secret): set<Hash> {
    var entry := SealNode(EMPTY_NODE, secret).hash;
    {entry, PinsLink({entry}).hash, ManifestLink(InitialManifest(id, name, key, secret)).hash}
  }

  function GetManifest(store: Store, link: Link): Result<Manifest> {
    if link.hash !in store then Err(LinkNotFound)
    else if !link.hash.blob.ManifestBlob? then Err(CodecError)
    else Ok(link.hash.blob.manifest)
  }

  /** Owners unwrap their share; mirrors use the secret that publishing exposes. */
  function SecretFor(manifest: Manifest, key: SecretKey): Result<Secret> {
    if key.public !in manifest.shares then Err(ShareNotFound) else
    var share := manifest.shares[key.public];
    match share.role
    case Owner =>
      if share.share.None? then Err(ShareNotFound)
      else if share.share.value.recipient != key.public then Err(SecretError)
      else Ok(share.share.value.secret)
    case Mirror =>
      if manifest.public.None? then Err(MirrorCannotMount) else Ok(manifest.public.value)
  }

  function GetPins(store: Store, link: Link): Result<set<Hash>> {
    if link.hash !in store then Err(LinkNotFound)
    else if !link.hash.blob.PinList? then Err(CodecError)
    else Ok(link.hash.blob.pins)
  }

  function GetOps(store: Store, link: Link, secret: Secret): Result<Ops> {
    var blob := link.hash.blob;
    if link.hash !in store then Err(LinkNotFound)
    else if !blob.Sealed? || blob.secret != secret then Err(SecretError)
    else if !blob.plain.OpsPlain? then Err(CodecError)
    else Ok(blob.plain.ops)
  }

  function Load(store: Store, link: Link, key: SecretKey): Result<MountState> {
    var manifest := GetManifest(store, link);
    if manifest.Err? then Err(manifest.error) else
    var secret := SecretFor(manifest.value, key);
    if secret.Err? then Err(secret.error) else
    var pins := GetPins(store, manifest.value.pins);
    if pins.Err? then Err(pins.error) else
    var entry := GetNode(store, Dir(manifest.value.entry, secret.value));
    if entry.Err? then Err(entry.error) else
    var opsLog := manifest.value.opsLog;
    var ops := if opsLog.None? then Ok(map[]) else GetOps(store, opsLog.value, secret.value);
    if ops.Err? then Err(ops.error)
    else Ok(MountState(link, manifest.value, entry.value, pins.value, manifest.value.height, Rebuilt(ops.value), key))
  }

  // ---------- membership ----------

  /** A new owner starts with a placeholder secret, replaced at the next save. */
  function AddOwner(m: MountState, peer: PublicKey): MountState {
    m.(manifest := m.manifest.(shares := m.manifest.shares[peer := Share(Owner, peer, Some(Wrapped(0, peer)))]))
  }

  function AddMirror(m: MountState, peer: PublicKey): MountState {
    m.(manifest := m.manifest.(shares := m.manifest.shares[peer := Share(Mirror, peer, None)]))
  }
}
