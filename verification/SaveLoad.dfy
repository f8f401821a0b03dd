/** Saving and loading round trip, by role; and saving extends the bucket log. */
module SaveLoad {
  import opened Content
  import opened PathOps
  import opened Trees
  import opened Mounts
  import opened MountRuns
  import BucketLog

  /** What the members of a bucket get from the version just saved: the same tree, the saved operations, the saved
      pins, at the next height. */
  ghost predicate LoadsSaved(m: MountState, l: MountState, secret: Secret) {
    l.entry == m.entry && l.ops.ops == m.ops.ops && l.pins == SavedPins(m, secret) && l.height == m.height + 1
  }

  /** After a save every owner loads the saved mount, a mirror does exactly when the version was published, and nobody
      else can. */
  lemma RoundTripByRole(m: MountState, store: Store, publish: bool, secret: Secret, reader: SecretKey)
    requires SharesKeyed(m.manifest.shares)
    ensures var o := Save(m, store, publish, secret);
            var r := Load(o.store, o.mount.link, reader);
            var shares := m.manifest.shares;
            if reader.public !in shares then r == Err(ShareNotFound)
            else if shares[reader.public].role.Mirror? && !publish then r == Err(MirrorCannotMount)
            else r.Ok? && LoadsSaved(m, r.value, secret) && r.value.link == o.mount.link
                 && r.value.key == reader && r.value.manifest == o.mount.manifest
  {
    var o, v := Save(m, store, publish, secret), SavedManifest(m, publish, secret);
    assert v.shares == Reshare(m.manifest.shares, secret);
  }

  /** A save gives its secret to the owners, wrapped for each, and to everyone if it publishes; it keeps the members,
      their roles and what mirrors had, and the identity of the bucket. */
  lemma OnlyOwnersGetTheSecret(m: MountState, publish: bool, secret: Secret)
    requires SharesKeyed(m.manifest.shares)
    ensures var v, shares := SavedManifest(m, publish, secret), m.manifest.shares;
            && v.id == m.manifest.id && v.name == m.manifest.name
            && v.shares.Keys == shares.Keys && v.public == (if publish then Some(secret) else None)
            && (forall k :: k in shares && shares[k].role.Owner? ==>
                  v.shares[k] == Share(Owner, k, Some(Wrapped(secret, k))))
            && (forall k :: k in shares && shares[k].role.Mirror? ==> v.shares[k] == shares[k])
            && (forall key: SecretKey, s ::
                  MaySee(v, key, s) <==>
                  s == secret && key.public in shares && (shares[key.public].role.Owner? || publish))
  {}

  /** A new member takes effect with the next version: an owner loads it whatever secret it held before, a mirror if
      it is published; everyone else gets from it what they would have got without the new member. */
  lemma NewMemberLoadsNextVersion(m: MountState, store: Store, publish: bool, secret: Secret, peer: SecretKey,
                                  reader: SecretKey, role: Role)
    requires SharesKeyed(m.manifest.shares) && peer.public != reader.public
    ensures var joined := if role.Owner? then AddOwner(m, peer.public) else AddMirror(m, peer.public);
            var o, without := Save(joined, store, publish, secret), Save(m, store, publish, secret);
            var r, others := Load(o.store, o.mount.link, peer), Load(o.store, o.mount.link, reader);
            && (role.Owner? || publish ==> r.Ok? && LoadsSaved(m, r.value, secret))
            && (role.Mirror? && !publish ==> r == Err(MirrorCannotMount))
            && (others.Ok? <==> Load(without.store, without.mount.link, reader).Ok?)
            && (others.Ok? ==> LoadsSaved(m, others.value, secret))
  {
    var joined := if role.Owner? then AddOwner(m, peer.public) else AddMirror(m, peer.public);
    RoundTripByRole(joined, store, publish, secret, peer);
    RoundTripByRole(joined, store, publish, secret, reader);
    RoundTripByRole(m, store, publish, secret, reader);
  }

  /** A signature holds when the author signed this manifest with the signature taken out. */
  predicate VerifySignature(m: Manifest) {
    && m.author.Some? && m.signature.Some?
    && m.signature.value.signer == m.author.value
    && m.signature.value.over == m.(signature := None)
  }

  /** A signature verifies exactly when signing with the author's key gives the manifest as it is. */
  lemma VerifiesExactlyWhenSigned(m: Manifest)
    ensures VerifySignature(m) <==> m.author.Some? && m == Sign(m, SecretKey(m.author.value))
  {}

  /** So no manifest can take over the signature of another. */
  lemma SignatureBinds(v: Manifest, w: Manifest)
    requires VerifySignature(v) && VerifySignature(w) && v.signature == w.signature
    ensures v == w
  {
    assert v == v.(signature := None).(signature := v.signature);
    assert w == w.(signature := None).(signature := w.signature);
  }

  // ---------- who can load what ----------

  /** The secret of a version that a key opens: an owner's share is wrapped for it, a mirror uses the published one. */
  predicate MaySee(v: Manifest, key: SecretKey, secret: Secret) {
    && key.public in v.shares
    && match v.shares[key.public].role
       case Owner => v.shares[key.public].share == Some(Wrapped(secret, key.public))
       case Mirror => v.public == Some(secret)
  }

  /** The blob is here and holds this content under the secret. */
  predicate Holds(store: Store, link: Link, secret: Secret, plain: Plain) {
    link.hash in store && link.hash.blob == Sealed(secret, plain)
  }

  /** What loading gives is what the version says. */
  ghost predicate Loaded(store: Store, link: Link, key: SecretKey, secret: Secret, m: MountState) {
    && link.hash in store && link.hash.blob == ManifestBlob(m.manifest) && m.link == link && m.key == key
    && MaySee(m.manifest, key, secret)
    && m.manifest.pins.hash in store && m.manifest.pins.hash.blob == PinList(m.pins)
    && Holds(store, m.manifest.entry, secret, NodePlain(m.entry))
    && (if m.manifest.opsLog.None? then m.ops.ops == map[]
        else Holds(store, m.manifest.opsLog.value, secret, OpsPlain(m.ops.ops)))
    && m.height == m.manifest.height && ClockIsGreatest(m.ops)
  }

  /** Loading succeeds exactly when the version is here, the key opens it, and its pin list, root and operations are
      here and open; and then it gives what they say. */
  lemma LoadExactlyWhen(store: Store, link: Link, key: SecretKey)
    ensures Load(store, link, key).Ok? <==> exists secret, m :: Loaded(store, link, key, secret, m)
    ensures forall secret, m :: Loaded(store, link, key, secret, m) ==> Load(store, link, key) == Ok(m)
  {
    var r := Load(store, link, key);
    forall l: Log ensures ClockIsGreatest(l) <==> l == Rebuilt(l.ops) {
      RebuiltIs(l);
    }
    if r.Ok? {
      assert Loaded(store, link, key, SecretFor(r.value.manifest, key).value, r.value);
    }
  }

  /** The creator loads a new bucket as it is, and nobody else can. */
  lemma GenesisLoads(id: Uuid, name: string, key: SecretKey, secret: Secret, store: Store, reader: SecretKey)
    requires InitPuts(id, name, key, secret) <= store
    ensures Load(store, Init(id, name, key, secret).link, reader)
            == if reader == key then Ok(Init(id, name, key, secret)) else Err(ShareNotFound)
  {}

  // ---------- saving into the log ----------

  function SavedEntry(m: MountState, publish: bool, secret: Secret): BucketLog.Entry {
    var v := SavedManifest(m, publish, secret);
    BucketLog.Entry(m.manifest.id, m.manifest.name, ManifestLink(v), Some(m.link), m.height + 1, v.public.Some?)
  }

  /** Every logged link names a version that is in the store. */
  ghost predicate LoggedStored(log: BucketLog.LogState, id: Uuid, store: Store) {
    forall h, l :: l in BucketLog.Heads(log, id, h) ==> l.hash in store
  }

  /** Saving a mount whose version is logged at its height passes validation exactly when the new link is not already
      logged there, and a secret that makes the new root a new blob guarantees that. */
  lemma SavedMountIsAppended(m: MountState, store: Store, log: BucketLog.LogState, publish: bool, secret: Secret)
    requires m.link in BucketLog.Heads(log, m.manifest.id, m.height)
    ensures var e := SavedEntry(m, publish, secret);
            BucketLog.Validate(log, e).Appended? <==> e.current !in BucketLog.Heads(log, e.id, e.height)
    ensures WorldOk(World(map[0 := m], store)) && LoggedStored(log, m.manifest.id, store)
            && SealNode(m.entry, secret).hash !in store ==>
              BucketLog.Validate(log, SavedEntry(m, publish, secret)).Appended?
  {
    var e := SavedEntry(m, publish, secret);
    if WorldOk(World(map[0 := m], store)) && LoggedStored(log, m.manifest.id, store)
       && e.current in BucketLog.Heads(log, e.id, e.height)
    {
      assert VersionOk(store, SavedManifest(m, publish, secret));
    }
  }

  /** After the append the mount stands on a logged version again, so that its next save is appended too. */
  lemma SavedMountIsLogged(m: MountState, store: Store, log: BucketLog.LogState, publish: bool, secret: Secret)
    requires BucketLog.Validate(log, SavedEntry(m, publish, secret)).Appended?
    ensures var saved := Save(m, store, publish, secret).mount;
            var after := BucketLog.Append(log, SavedEntry(m, publish, secret));
            saved.link in BucketLog.Heads(after, saved.manifest.id, saved.height)
  {
    BucketLog.AppendHeads(log, SavedEntry(m, publish, secret));
  }
}
