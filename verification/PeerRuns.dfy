/** A peer that creates buckets, opens, edits and saves mounts, and follows other peers: what its log holds. */
module PeerRuns {
  import opened Content
  import opened Trees
  import opened Mounts
  import opened MountRuns
  import opened SaveLoad
  import opened SyncRuns
  import BucketLog
  import Ping
  import Sync

  /** An entry of the log: a version of a bucket, at a height. */
  datatype Place = Place(id: Uuid, height: nat, link: Link)

  /** The mounts and the store of a peer, its bucket log, and the entries that its sync jobs have appended. */
  datatype Host = Host(world: World, log: BucketLog.LogState, synced: set<Place>)

  /** What a peer does: an action on its own mounts, or a sync job. */
  datatype Step = Local(a: Action) | Follow(job: Job)

  function GenesisEntry(id: Uuid, name: string, key: SecretKey, secret: Secret): BucketLog.Entry {
    BucketLog.Entry(id, name, Init(id, name, key, secret).link, None, 0, false)
  }

  /** What a step appends: creating a bucket its genesis, saving a mount the saved version, a sync job what it
      chooses. */
  function AppendOf(h: Host, step: Step): Option<BucketLog.Entry> {
    match step
    case Local(DoInit(_, id, name, key, secret)) => Some(GenesisEntry(id, name, key, secret))
    case Local(DoSave(i, publish, secret)) =>
      if i in h.world.mounts then Some(SavedEntry(h.world.mounts[i], publish, secret)) else None
    case Local(_) => None
    case Follow(j) =>
      var chosen := Sync.Chosen(h.log, j.self, j.id, j.available, j.target);
      if chosen.Ok? && chosen.value.Some? then Some(Sync.EntryOf(j.id, chosen.value.value)) else None
  }

  function LogNext(log: BucketLog.LogState, e: Option<BucketLog.Entry>): BucketLog.LogState {
    if e.None? then log else BucketLog.Append(log, e.value)
  }

  function PlaceOf(e: BucketLog.Entry): Place {
    Place(e.id, e.height, e.current)
  }

  /** The append of the step is there and is accepted. */
  predicate Appends(log: BucketLog.LogState, e: Option<BucketLog.Entry>) {
    e.Some? && BucketLog.Validate(log, e.value).Appended?
  }

  function HostNext(h: Host, step: Step): Host {
    var e := AppendOf(h, step);
    match step
    case Local(a) => Host(Next(h.world, a), LogNext(h.log, e), h.synced)
    case Follow(j) =>
      Host(h.world, Sync.Execute(h.log, j.self, j.id, j.available, j.target).log,
           if Appends(h.log, e) then h.synced + {PlaceOf(e.value)} else h.synced)
  }

  function HostRun(steps: seq<Step>): Host {
    if steps == [] then Host(World(map[], {}), BucketLog.EMPTY_STATE, {})
    else HostNext(HostRun(steps[..|steps| - 1]), steps[|steps| - 1])
  }

  /** A step appends to the log what it appends, and nothing else. */
  lemma LogOfNext(h: Host, step: Step)
    ensures HostNext(h, step).log == LogNext(h.log, AppendOf(h, step))
  {}

  // ---------- every log is proper ----------

  /** What a step appends is what the manifest of the appended version says. */
  lemma AppendsItsManifest(h: Host, step: Step)
    ensures var e := AppendOf(h, step);
            e.Some? ==> e.value.current.hash.blob.ManifestBlob? && e.value == Sync.EntryOf(e.value.id, e.value.current)
  {}

  ghost predicate AllProper(log: BucketLog.LogState) {
    forall id :: Proper(log, id)
  }

  lemma AppendKeepsProper(log: BucketLog.LogState, id: Uuid, link: Link)
    requires AllProper(log) && link.hash.blob.ManifestBlob?
    ensures AllProper(BucketLog.Append(log, Sync.EntryOf(id, link)))
  {
    var e := Sync.EntryOf(id, link);
    assert Proper(log, id);
    AppendKeepsConsistent(log, e);
    forall other ensures Proper(BucketLog.Append(log, e), other) {
      assert Proper(log, other);
      if other == id {
        GroundedAppend(log, id, link);
      } else {
        OtherBucketStays(log, e, other);
      }
    }
  }

  lemma OtherBucketStays(log: BucketLog.LogState, e: BucketLog.Entry, id: Uuid)
    requires Grounded(log, id) && id != e.id
    ensures Grounded(BucketLog.Append(log, e), id)
  {
    SameHeads(log, e, id);
    var after := BucketLog.Append(log, e);
    forall h: nat, l | l in BucketLog.Heads(after, id, h) ensures Seated(after, id, h, l) {
      assert Seated(log, id, h, l);
    }
  }

  lemma SameHeads(log: BucketLog.LogState, e: BucketLog.Entry, id: Uuid)
    requires id != e.id
    ensures forall h :: BucketLog.Heads(BucketLog.Append(log, e), id, h) == BucketLog.Heads(log, id, h)
  {
    if BucketLog.Validate(log, e).Appended? {
      BucketLog.AppendHeads(log, e);
    } else {
      BucketLog.RejectedAppendIsSilent(log, e);
    }
  }

  lemma EmptyIsProper()
    ensures AllProper(BucketLog.EMPTY_STATE)
  {
    assert BucketLog.AppendAll(BucketLog.EMPTY_STATE, []) == BucketLog.EMPTY_STATE;
    BucketLog.ValidAfterAnyAppends([]);
  }

  /** After any steps of a peer, its own and sync jobs in any order, accepted or not, its log is proper: the index
      matches the entries, and every logged version is at the height its manifest says, on top of its predecessor. */
  lemma {:induction false} EveryLogIsProper(steps: seq<Step>)
    ensures AllProper(HostRun(steps).log)
  {
    if steps == [] {
      EmptyIsProper();
    } else {
      var h, last := HostRun(steps[..|steps| - 1]), steps[|steps| - 1];
      EveryLogIsProper(steps[..|steps| - 1]);
      AppendsItsManifest(h, last);
      LogOfNext(h, last);
      var e := AppendOf(h, last);
      if e.Some? {
        AppendKeepsProper(h.log, e.value.id, e.value.current);
      }
    }
  }

  /** So any two peers, whatever they have done before, come to report the same head exactly when the lower one can
      follow the head of the higher one, or they did from the start. */
  lemma AnyPeersConvergeExactlyWhen(steps: seq<Step>, self: PublicKey, others: seq<Step>, other: PublicKey, id: Uuid,
                                    available: set<Hash>, rank: Link -> nat, starts: seq<bool>)
    ensures var a, b := Ping.Peer(HostRun(steps).log, self), Ping.Peer(HostRun(others).log, other);
            var r := Ping.Rounds(a, b, id, available, rank, starts);
            var low, high := Ping.Lower(a, b, id, rank), Ping.Higher(a, b, id, rank);
            var head := BucketLog.Head(high.log, id, None, rank);
            BucketLog.Head(r.0.log, id, None, rank) == BucketLog.Head(r.1.log, id, None, rank) <==>
            || BucketLog.Head(a.log, id, None, rank) == BucketLog.Head(b.log, id, None, rank)
            || (&& Ping.Level(a.log, id, rank) != Ping.Level(b.log, id, rank)
                && Ping.CanFollowTo(low, id, available, head.value.0)
                && |starts| >= Missing(low.log, id, head.value.0))
  {
    EveryLogIsProper(steps);
    EveryLogIsProper(others);
    var a, b := Ping.Peer(HostRun(steps).log, self), Ping.Peer(HostRun(others).log, other);
    assert Proper(a.log, id) && Proper(b.log, id);
    Ping.PeersConvergeExactlyWhen(a, b, id, available, rank, starts);
  }

  // ---------- what the log lists ----------

  predicate HasRoot(l: Link, root: Hash) {
    l.hash.blob.ManifestBlob? && l.hash.blob.manifest.entry.hash == root
  }

  /** A new secret seals the root of a new version into a blob that no version has as its root. */
  predicate NewRoot(h: Host, root: Hash) {
    root !in h.world.store && forall p :: p in h.synced ==> !HasRoot(p.link, root)
  }

  /** A peer opens only versions of its log, and draws new secrets for new versions. */
  predicate Proceeds(h: Host, step: Step) {
    match step
    case Local(DoInit(_, _, _, _, secret)) => NewRoot(h, SealNode(EMPTY_NODE, secret).hash)
    case Local(DoSave(i, _, secret)) =>
      i in h.world.mounts ==> NewRoot(h, SealNode(h.world.mounts[i].entry, secret).hash)
    case Local(DoLoad(_, link, _)) =>
      link.hash.blob.ManifestBlob? &&
      link in BucketLog.Heads(h.log, link.hash.blob.manifest.id, link.hash.blob.manifest.height)
    case Local(_) => true
    case Follow(_) => true
  }

  predicate ProceedsThroughout(steps: seq<Step>) {
    steps == [] ||
    (&& ProceedsThroughout(steps[..|steps| - 1])
     && Proceeds(HostRun(steps[..|steps| - 1]), steps[|steps| - 1]))
  }

  /** What the peer itself appends is accepted. */
  predicate Accepts(h: Host, step: Step) {
    step.Local? && AppendOf(h, step).Some? ==> Appends(h.log, AppendOf(h, step))
  }

  predicate AcceptedThroughout(steps: seq<Step>) {
    steps == [] ||
    (&& AcceptedThroughout(steps[..|steps| - 1])
     && Accepts(HostRun(steps[..|steps| - 1]), steps[|steps| - 1]))
  }

  /** The version is stored, under this bucket and at this height. */
  predicate IsVersion(store: Store, p: Place) {
    && p.link.codec.CborCodec? && p.link.hash in store && p.link.hash.blob.ManifestBlob?
    && p.link.hash.blob.manifest.id == p.id && p.link.hash.blob.manifest.height == p.height
  }

  predicate Lists(log: BucketLog.LogState, p: Place) {
    p.link in BucketLog.Heads(log, p.id, p.height)
  }

  /** The log lists exactly the versions that the peer has stored, and what its sync jobs have appended. */
  ghost predicate LogsVersions(log: BucketLog.LogState, store: Store, synced: set<Place>) {
    forall p :: Lists(log, p) <==> IsVersion(store, p) || p in synced
  }

  /** A mount stands on a logged version of its own bucket. */
  predicate OnLogged(log: BucketLog.LogState, m: MountState) {
    Lists(log, Place(m.manifest.id, m.height, m.link))
  }

  ghost predicate HostOk(h: Host) {
    && WorldOk(h.world) && LogsVersions(h.log, h.world.store, h.synced)
    && forall i :: i in h.world.mounts ==> OnLogged(h.log, h.world.mounts[i])
  }

  // ---------- one step ----------

  lemma ListsMore(log: BucketLog.LogState, e: BucketLog.Entry, p: Place)
    ensures Lists(BucketLog.Append(log, e), p) <==>
            Lists(log, p) || (BucketLog.Validate(log, e).Appended? && p == PlaceOf(e))
  {
    if BucketLog.Validate(log, e).Appended? {
      BucketLog.HeadsOneMore(log, e, p.id, p.height, p.link);
    } else {
      BucketLog.RejectedAppendIsSilent(log, e);
    }
  }

  /** A version that is not listed is accepted on top of one that is, or at height 0. */
  lemma NewVersionFits(log: BucketLog.LogState, e: BucketLog.Entry)
    requires !Lists(log, PlaceOf(e))
    requires match e.previous
             case None => e.height == 0
             case Some(p) => e.height > 0 && Lists(log, Place(e.id, e.height - 1, p))
    ensures BucketLog.Validate(log, e).Appended?
  {}

  /** One version more, in the store and in the log. */
  lemma OneMoreVersion(log: BucketLog.LogState, store: Store, more: Store, synced: set<Place>, e: BucketLog.Entry)
    requires LogsVersions(log, store, synced) && BucketLog.Validate(log, e).Appended?
    requires store <= more && IsVersion(more, PlaceOf(e))
    requires forall v :: HashOf(ManifestBlob(v)) in more && HashOf(ManifestBlob(v)) !in store ==>
               HashOf(ManifestBlob(v)) == e.current.hash
    ensures LogsVersions(BucketLog.Append(log, e), more, synced)
  {
    forall p ensures Lists(BucketLog.Append(log, e), p) <==> IsVersion(more, p) || p in synced {
      ListsMore(log, e, p);
      if IsVersion(more, p) && p.link.hash !in store {
        assert p.link.hash == HashOf(ManifestBlob(p.link.hash.blob.manifest));
      }
    }
  }

  lemma SameVersions(log: BucketLog.LogState, store: Store, more: Store, synced: set<Place>)
    requires LogsVersions(log, store, synced) && store <= more && NoNewVersions(store, more)
    ensures LogsVersions(log, more, synced)
  {
    forall p ensures IsVersion(more, p) <==> IsVersion(store, p) {
      if IsVersion(more, p) {
        assert p.link.hash == HashOf(ManifestBlob(p.link.hash.blob.manifest));
      }
    }
  }

  lemma RootsAreStored(store: Store)
    requires forall v :: HashOf(ManifestBlob(v)) in store ==> VersionOk(store, v)
    ensures forall v :: HashOf(ManifestBlob(v)) in store ==> v.entry.hash in store
  {}

  /** A version under a new root is not listed. */
  lemma NewRootIsNotListed(h: Host, v: Manifest, p: Place)
    requires HostOk(h) && NewRoot(h, v.entry.hash) && p.link == ManifestLink(v)
    ensures !Lists(h.log, p) && p.link.hash !in h.world.store
  {
    RootsAreStored(h.world.store);
    assert HasRoot(p.link, v.entry.hash);
  }

  lemma SaveKeepsHost(h: Host, i: nat, publish: bool, secret: Secret)
    requires HostOk(h) && i in h.world.mounts && Proceeds(h, Local(DoSave(i, publish, secret)))
    ensures var o := Save(h.world.mounts[i], h.world.store, publish, secret);
            var e := SavedEntry(h.world.mounts[i], publish, secret);
            && BucketLog.Validate(h.log, e).Appended? && h.world.store <= o.store
            && LogsVersions(BucketLog.Append(h.log, e), o.store, h.synced)
            && OnLogged(BucketLog.Append(h.log, e), o.mount)
  {
    var m, store := h.world.mounts[i], h.world.store;
    var o, e := Save(m, store, publish, secret), SavedEntry(m, publish, secret);
    NewRootIsNotListed(h, SavedManifest(m, publish, secret), PlaceOf(e));
    NewVersionFits(h.log, e);
    forall v | HashOf(ManifestBlob(v)) in o.store && HashOf(ManifestBlob(v)) !in store
      ensures HashOf(ManifestBlob(v)) == e.current.hash
    {
      SaveWritesOneVersion(store, m, publish, secret, v);
    }
    OneMoreVersion(h.log, store, o.store, h.synced, e);
    ListsMore(h.log, e, PlaceOf(e));
  }

  lemma InitKeepsHost(h: Host, i: nat, id: Uuid, name: string, key: SecretKey, secret: Secret)
    requires HostOk(h) && Proceeds(h, Local(DoInit(i, id, name, key, secret)))
    ensures var e, more := GenesisEntry(id, name, key, secret), h.world.store + InitPuts(id, name, key, secret);
            && BucketLog.Validate(h.log, e).Appended?
            && LogsVersions(BucketLog.Append(h.log, e), more, h.synced)
            && OnLogged(BucketLog.Append(h.log, e), Init(id, name, key, secret))
  {
    var e := GenesisEntry(id, name, key, secret);
    NewRootIsNotListed(h, InitialManifest(id, name, key, secret), PlaceOf(e));
    NewVersionFits(h.log, e);
    OneMoreVersion(h.log, h.world.store, h.world.store + InitPuts(id, name, key, secret), h.synced, e);
    ListsMore(h.log, e, PlaceOf(e));
  }

  lemma OnLoggedStays(log: BucketLog.LogState, e: Option<BucketLog.Entry>, m: MountState)
    requires OnLogged(log, m)
    ensures OnLogged(LogNext(log, e), m)
  {
    if e.Some? {
      ListsMore(log, e.value, Place(m.manifest.id, m.height, m.link));
    }
  }

  /** Edits and membership changes leave the mount on its version. */
  lemma SameVersion(m: MountState, store: Store, a: Action)
    requires !a.DoInit? && !a.DoLoad? && !a.DoSave?
    ensures var m' := Act(m, store, a).mount;
            m'.link == m.link && m'.height == m.height && m'.manifest.id == m.manifest.id
  {}

  lemma MountsStayOnLogged(h: Host, e: Option<BucketLog.Entry>)
    requires HostOk(h)
    ensures forall j :: j in h.world.mounts ==> OnLogged(LogNext(h.log, e), h.world.mounts[j])
  {
    forall j | j in h.world.mounts ensures OnLogged(LogNext(h.log, e), h.world.mounts[j]) {
      OnLoggedStays(h.log, e, h.world.mounts[j]);
    }
  }

  /** Replacing one mount. */
  lemma HostWith(h: Host, after: Host, e: Option<BucketLog.Entry>, i: nat, m: MountState)
    requires HostOk(h) && WorldOk(after.world) && LogsVersions(after.log, after.world.store, after.synced)
    requires after.world.mounts == h.world.mounts[i := m] && after.log == LogNext(h.log, e) && OnLogged(after.log, m)
    ensures HostOk(after)
  {
    MountsStayOnLogged(h, e);
  }

  lemma InitKeepsHostOk(h: Host, i: nat, id: Uuid, name: string, key: SecretKey, secret: Secret)
    requires HostOk(h) && Proceeds(h, Local(DoInit(i, id, name, key, secret)))
    ensures var step := Local(DoInit(i, id, name, key, secret)); Accepts(h, step) && HostOk(HostNext(h, step))
  {
    InitKeepsWorld(h.world, i, id, name, key, secret);
    InitKeepsHost(h, i, id, name, key, secret);
    HostWith(h, HostNext(h, Local(DoInit(i, id, name, key, secret))), Some(GenesisEntry(id, name, key, secret)), i,
             Init(id, name, key, secret));
  }

  lemma LoadKeepsHostOk(h: Host, i: nat, link: Link, key: SecretKey)
    requires HostOk(h) && Proceeds(h, Local(DoLoad(i, link, key)))
    ensures HostOk(HostNext(h, Local(DoLoad(i, link, key))))
  {
    var r := Load(h.world.store, link, key);
    if r.Ok? {
      LoadKeepsWorld(h.world, i, link, key);
      HostWith(h, HostNext(h, Local(DoLoad(i, link, key))), None, i, r.value);
    }
  }

  lemma EditKeepsHost(h: Host, a: Action)
    requires HostOk(h) && !a.DoInit? && !a.DoLoad? && !a.DoSave? && a.i in h.world.mounts
    ensures HostOk(HostNext(h, Local(a)))
  {
    var m, o := h.world.mounts[a.i], Act(h.world.mounts[a.i], h.world.store, a);
    TreeActionKeepsWorld(h.world, a);
    TreeActionKeepsMount(m, h.world.store, a);
    SameVersion(m, h.world.store, a);
    SameVersions(h.log, h.world.store, o.store, h.synced);
    EditStep(h, a);
    HostWith(h, Host(Put(h.world, a.i, o), h.log, h.synced), None, a.i, o.mount);
  }

  lemma EditStep(h: Host, a: Action)
    requires !a.DoInit? && !a.DoLoad? && !a.DoSave? && a.i in h.world.mounts
    ensures HostNext(h, Local(a))
            == Host(Put(h.world, a.i, Act(h.world.mounts[a.i], h.world.store, a)), h.log, h.synced)
  {}

  lemma SaveStep(h: Host, i: nat, publish: bool, secret: Secret)
    requires i in h.world.mounts
    ensures var o := Save(h.world.mounts[i], h.world.store, publish, secret);
            var e := SavedEntry(h.world.mounts[i], publish, secret);
            && AppendOf(h, Local(DoSave(i, publish, secret))) == Some(e)
            && HostNext(h, Local(DoSave(i, publish, secret)))
               == Host(Put(h.world, i, o), BucketLog.Append(h.log, e), h.synced)
  {}

  lemma SavingKeepsHost(h: Host, i: nat, publish: bool, secret: Secret)
    requires HostOk(h) && Proceeds(h, Local(DoSave(i, publish, secret))) && i in h.world.mounts
    ensures Accepts(h, Local(DoSave(i, publish, secret))) && HostOk(HostNext(h, Local(DoSave(i, publish, secret))))
  {
    var o, e := Save(h.world.mounts[i], h.world.store, publish, secret), SavedEntry(h.world.mounts[i], publish, secret);
    SaveKeepsWorld(h.world, i, publish, secret);
    SaveKeepsHost(h, i, publish, secret);
    SaveStep(h, i, publish, secret);
    HostWith(h, Host(Put(h.world, i, o), BucketLog.Append(h.log, e), h.synced), Some(e), i, o.mount);
  }

  lemma FollowKeepsHost(h: Host, j: Job)
    requires HostOk(h)
    ensures HostOk(HostNext(h, Follow(j)))
  {
    var e := AppendOf(h, Follow(j));
    var after := HostNext(h, Follow(j));
    MountsStayOnLogged(h, e);
    LogOfNext(h, Follow(j));
    forall p ensures Lists(after.log, p) <==> IsVersion(h.world.store, p) || p in after.synced {
      if e.Some? {
        ListsMore(h.log, e.value, p);
      }
    }
  }

  lemma StepKeepsHost(h: Host, step: Step)
    requires HostOk(h) && Proceeds(h, step)
    ensures Accepts(h, step) && HostOk(HostNext(h, step))
  {
    match step
    case Follow(j) => FollowKeepsHost(h, j);
    case Local(a) =>
      if a.DoInit? {
        InitKeepsHostOk(h, a.i, a.id, a.name, a.key, a.secret);
      } else if a.DoLoad? {
        LoadKeepsHostOk(h, a.i, a.link, a.key);
      } else if a.i in h.world.mounts {
        if a.DoSave? {
          SavingKeepsHost(h, a.i, a.publish, a.secret);
        } else {
          EditKeepsHost(h, a);
        }
      }
  }

  // ---------- runs ----------

  /** Over every run of a peer, with any number of buckets and mounts, and with sync jobs in between: everything the
      peer appends itself is accepted, the log lists exactly the versions it ever stored and those its jobs have
      appended, each under its bucket at its height, and every open mount stands on one of them. */
  lemma {:induction false} LogHoldsSavedVersions(steps: seq<Step>)
    requires ProceedsThroughout(steps)
    ensures AcceptedThroughout(steps) && HostOk(HostRun(steps))
  {
    if steps != [] {
      LogHoldsSavedVersions(steps[..|steps| - 1]);
      StepKeepsHost(HostRun(steps[..|steps| - 1]), steps[|steps| - 1]);
    }
  }
}
