/** The versions that mounts write are the histories that peers search and follow. */
module Histories {
  import opened Content
  import opened Trees
  import opened Mounts
  import opened MountRuns
  import opened Chains
  import opened SyncRuns
  import BucketLog
  import Sync

  // ---------- what every run writes ----------

  predicate Stored(store: Store, link: Link) {
    link.hash in store && link.hash.blob.ManifestBlob?
  }

  lemma {:induction false} StoredChain(w: World, link: Link)
    requires WorldOk(w) && Stored(w.store, link)
    ensures HeightsCount(link) && Supplied(w.store, link)
    decreases link
  {
    var v := link.hash.blob.manifest;
    assert link.hash == HashOf(ManifestBlob(v)) && VersionOk(w.store, v);
    if v.previous.Some? {
      StoredChain(w, v.previous.value);
    }
    HeightsCountWhen(link);
  }

  /** In every run the whole history of every stored version is stored too, and its heights count up from genesis. */
  lemma WrittenHistoryIsWhole(actions: seq<Action>, link: Link)
    requires Stored(RunOf(actions).store, link)
    ensures HeightsCount(link) && Supplied(RunOf(actions).store, link) && Readable(RunOf(actions).store, link)
  {
    PinsCoverEveryRun(actions);
    StoredChain(RunOf(actions), link);
  }

  /** So the ancestor of any two versions that mounts wrote is found, from either side, and is the highest link that
      both have. */
  lemma AncestorOfWrittenVersions(actions: seq<Action>, a: Link, b: Link)
    requires Stored(RunOf(actions).store, a) && Stored(RunOf(actions).store, b)
    ensures var store := RunOf(actions).store;
            var r := CommonAncestor(store, a, b);
            && r.Ok? && r == CommonAncestor(store, b, a)
            && (r.value.None? <==> forall l :: l in Chain(a) ==> l !in Chain(b))
            && (r.value.Some? ==>
                  && r.value.value in Chain(a) && r.value.value in Chain(b)
                  && forall l :: l in Chain(a) && l in Chain(b) && l != r.value.value ==>
                       l.hash.blob.ManifestBlob? && r.value.value.hash.blob.ManifestBlob?
                       && l.hash.blob.manifest.height < r.value.value.hash.blob.manifest.height)
  {
    WrittenHistoryIsWhole(actions, a);
    WrittenHistoryIsWhole(actions, b);
    AncestorSearchIsExact(RunOf(actions).store, a, b);
    var r := CommonAncestor(RunOf(actions).store, a, b).value;
    if r.Some? {
      forall l | l in Chain(a) && l in Chain(b) && l != r.value
        ensures l.hash.blob.manifest.height < r.value.hash.blob.manifest.height
      {
        NewestCommonIsHighest(r.value, a, b, l);
      }
    }
  }

  // ---------- who wrote it ----------

  ghost predicate AllAuthored(store: Store) {
    forall l :: Stored(store, l) ==> ProperlyAuthored(l)
  }

  /** The mount's key is an owner in the version the mount stands on. */
  predicate StandsAsOwner(m: MountState) {
    m.link.hash.blob.ManifestBlob? &&
    var shares := m.link.hash.blob.manifest.shares;
    m.key.public in shares && shares[m.key.public].role.Owner?
  }

  predicate SavesAsOwner(w: World, a: Action) {
    a.DoSave? && a.i in w.mounts ==> StandsAsOwner(w.mounts[a.i])
  }

  /** Every save of the run is by an owner in the version it follows. */
  predicate OwnersSave(actions: seq<Action>) {
    actions == [] ||
    (OwnersSave(actions[..|actions| - 1]) && SavesAsOwner(RunOf(actions[..|actions| - 1]), actions[|actions| - 1]))
  }

  lemma SavedIsAuthoredWhen(m: MountState, publish: bool, secret: Secret)
    requires m.link.hash.blob.ManifestBlob?
    ensures ProperlyAuthored(ManifestLink(SavedManifest(m, publish, secret))) <==> StandsAsOwner(m)
  {}

  lemma SaveWritesOnly(store: Store, m: MountState, publish: bool, secret: Secret, l: Link)
    requires Stored(Save(m, store, publish, secret).store, l) && !Stored(store, l)
    ensures l.hash == ManifestLink(SavedManifest(m, publish, secret)).hash
  {
    assert l.hash == HashOf(ManifestBlob(l.hash.blob.manifest));
    SaveWritesOneVersion(store, m, publish, secret, l.hash.blob.manifest);
  }

  /** A store with one more version. */
  lemma OneMoreAuthored(store: Store, more: Store, saved: Link)
    requires store <= more && Stored(more, saved)
    requires forall l :: Stored(more, l) && !Stored(store, l) ==> l.hash == saved.hash
    ensures AllAuthored(more) <==> AllAuthored(store) && ProperlyAuthored(saved)
  {}

  lemma SaveAuthoredWhen(m: MountState, store: Store, publish: bool, secret: Secret)
    requires MountOk(store, m)
    ensures AllAuthored(Save(m, store, publish, secret).store) <==> AllAuthored(store) && StandsAsOwner(m)
  {
    var more, saved := Save(m, store, publish, secret).store, ManifestLink(SavedManifest(m, publish, secret));
    SavedIsAuthoredWhen(m, publish, secret);
    forall l | Stored(more, l) && !Stored(store, l) ensures l.hash == saved.hash {
      SaveWritesOnly(store, m, publish, secret, l);
    }
    assert saved.hash in more;
    OneMoreAuthored(store, more, saved);
  }

  lemma NoNewVersionsAuthored(store: Store, more: Store)
    requires store <= more && NoNewVersions(store, more)
    ensures AllAuthored(more) <==> AllAuthored(store)
  {
    forall l | Stored(more, l) ensures Stored(store, l) {
      assert l.hash == HashOf(ManifestBlob(l.hash.blob.manifest));
    }
  }

  lemma InitIsAuthored(store: Store, id: Uuid, name: string, key: SecretKey, secret: Secret)
    ensures AllAuthored(store + InitPuts(id, name, key, secret)) <==> AllAuthored(store)
  {
    var more := store + InitPuts(id, name, key, secret);
    forall l | Stored(more, l) && !Stored(store, l) ensures ProperlyAuthored(l) {
      assert l.hash.blob.manifest == InitialManifest(id, name, key, secret);
    }
  }

  lemma ActAuthored(m: MountState, store: Store, a: Action)
    requires MountOk(store, m) && !a.DoInit? && !a.DoLoad?
    ensures AllAuthored(Act(m, store, a).store) <==> AllAuthored(store) && (a.DoSave? ==> StandsAsOwner(m))
  {
    if a.DoSave? {
      SaveAuthoredWhen(m, store, a.publish, a.secret);
    } else {
      TreeActionKeepsMount(m, store, a);
      NoNewVersionsAuthored(store, Act(m, store, a).store);
    }
  }

  lemma NextStore(w: World, a: Action)
    ensures Next(w, a).store ==
            if a.DoInit? then w.store + InitPuts(a.id, a.name, a.key, a.secret)
            else if a.DoLoad? || a.i !in w.mounts then w.store
            else Act(w.mounts[a.i], w.store, a).store
  {}

  lemma AuthoredNext(w: World, a: Action)
    requires WorldOk(w)
    ensures AllAuthored(Next(w, a).store) <==> AllAuthored(w.store) && SavesAsOwner(w, a)
  {
    NextStore(w, a);
    if a.DoInit? {
      InitIsAuthored(w.store, a.id, a.name, a.key, a.secret);
    } else if !a.DoLoad? && a.i in w.mounts {
      ActAuthored(w.mounts[a.i], w.store, a);
    }
  }

  /** Every version a run stores passes the author check of every peer exactly when every save of the run was by an
      owner in the version it follows. Saving itself does not ask for that. */
  lemma {:induction false} AuthoredExactlyWhen(actions: seq<Action>)
    ensures AllAuthored(RunOf(actions).store) <==> OwnersSave(actions)
  {
    if actions != [] {
      AuthoredExactlyWhen(actions[..|actions| - 1]);
      PinsCoverEveryRun(actions[..|actions| - 1]);
      AuthoredNext(RunOf(actions[..|actions| - 1]), actions[|actions| - 1]);
    }
  }

  // ---------- following it ----------

  lemma {:induction false} EmptyLogMissesAll(id: Uuid, link: Link)
    ensures Missing(BucketLog.EMPTY_STATE, id, link) == |Chain(link)|
    decreases link
  {
    if Previous(link).Some? {
      EmptyLogMissesAll(id, Previous(link).value);
    }
  }

  lemma EmptyLogSegment(id: Uuid, link: Link)
    ensures Sync.Segment(BucketLog.EMPTY_STATE, id, link) == Chain(link)
    ensures Sync.Newest(BucketLog.EMPTY_STATE, id, link) == None
  {
    Sync.SegmentIsContiguous(BucketLog.EMPTY_STATE, id, link);
    Sync.NewestIsLogged(BucketLog.EMPTY_STATE, id, link);
  }

  /** For an empty log the checks of all jobs together ask for fixed shares. */
  lemma EmptyLogKnows(id: Uuid, link: Link)
    ensures AuthorKnownThroughout(BucketLog.EMPTY_STATE, id, link) <==> FixedShares(link)
  {
    EmptyLogSegment(id, link);
    var c := Chain(link);
    assert c == c[..|c| - 1] + [link];
  }

  /** For an empty log and a version that some run wrote, nothing but its contents decides. */
  lemma EmptyLogFollows(actions: seq<Action>, link: Link, self: PublicKey, id: Uuid)
    requires Stored(RunOf(actions).store, link)
    ensures CanFollow(BucketLog.EMPTY_STATE, self, id, RunOf(actions).store, link) <==>
            && (forall l :: l in Chain(link) ==> ProperlyAuthored(l))
            && ListedIn(link, self) && FixedShares(link)
  {
    WrittenHistoryIsWhole(actions, link);
    EmptyLogSegment(id, link);
    EmptyLogKnows(id, link);
  }

  /** From writing to following: a peer that knows nothing and can fetch what the writers hold has logged a version that
      they wrote after n jobs if and only if n exceeds its height, the version lists the peer, every version of its
      history is properly authored, and its author is an owner in each of them. */
  lemma NewPeerFollows(actions: seq<Action>, link: Link, self: PublicKey, id: Uuid, n: nat)
    requires Stored(RunOf(actions).store, link)
    ensures var after := Repeat(BucketLog.EMPTY_STATE, self, id, RunOf(actions).store, link, n);
            Sync.Logged(after, id, link) <==>
            && n > link.hash.blob.manifest.height && ListedIn(link, self)
            && (forall l :: l in Chain(link) ==> ProperlyAuthored(l)) && FixedShares(link)
  {
    WrittenHistoryIsWhole(actions, link);
    EmptyLogFollows(actions, link, self, id);
    EmptyLogMissesAll(id, link);
    assert link in Chain(link);
    assert BucketLog.AppendAll(BucketLog.EMPTY_STATE, []) == BucketLog.EMPTY_STATE;
    BucketLog.ValidAfterAnyAppends([]);
    CatchesUp(BucketLog.EMPTY_STATE, self, id, RunOf(actions).store, link, n);
  }
}
