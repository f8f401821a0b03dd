/** What peers refuse, and what a refusal leaves behind. */
module Refusals {
  import opened Content
  import opened Trees
  import opened Mounts
  import opened MountRuns
  import opened Chains
  import opened BucketLog
  import opened SyncRuns
  import opened Forks
  import Histories
  import SaveLoad
  import Sync
  import Ping

  // ---------- a rejected append ----------

  /** Equal but for the names of buckets. */
  ghost predicate SameButNames(a: LogState, b: LogState) {
    a == b.(names := a.names)
  }

  lemma {:induction false} AncestorIgnoresNames(a: LogState, b: LogState, id: Uuid, available: set<Hash>, link: Link)
    requires SameButNames(a, b)
    ensures Sync.FindAncestor(a, id, available, link) == Sync.FindAncestor(b, id, available, link)
    decreases link
  {
    if Previous(link).Some? {
      AncestorIgnoresNames(a, b, id, available, Previous(link).value);
    }
  }

  lemma ChosenIgnoresNames(a: LogState, b: LogState, j: Job)
    requires SameButNames(a, b)
    ensures Sync.Chosen(a, j.self, j.id, j.available, j.target) == Sync.Chosen(b, j.self, j.id, j.available, j.target)
  {
    AncestorIgnoresNames(a, b, j.id, j.available, j.target);
    assert Sync.Candidates(a, j.id, j.available, j.target) == Sync.Candidates(b, j.id, j.available, j.target);
  }

  lemma AppendIgnoresNames(a: LogState, b: LogState, e: BucketLog.Entry)
    requires SameButNames(a, b)
    ensures Validate(a, e) == Validate(b, e) && SameButNames(Append(a, e), Append(b, e))
  {}

  /** No job looks at the names. */
  lemma JobIgnoresNames(a: LogState, b: LogState, j: Job)
    requires SameButNames(a, b)
    ensures Alike(a, b, j)
  {
    ChosenIgnoresNames(a, b, j);
    var chosen := Sync.Chosen(a, j.self, j.id, j.available, j.target);
    if chosen.Ok? && chosen.value.Some? {
      AppendIgnoresNames(a, b, Sync.EntryOf(j.id, chosen.value.value));
    }
  }

  function Execute(log: LogState, j: Job): Sync.JobOutcome {
    Sync.Execute(log, j.self, j.id, j.available, j.target)
  }

  /** A rejected append for a known bucket writes its name and nothing else. */
  lemma RejectedOnKnownBucket(log: LogState, e: BucketLog.Entry)
    requires Exists(log, e.id) && !Validate(log, e).Appended?
    ensures SameButNames(Append(log, e), log)
  {
    assert log.entries[e.id := Bucket(log, e.id)] == log.entries;
  }

  /** A rejected append for an unknown bucket leaves an empty one. From then on the bucket is known and shares nothing
      with anyone, so that no job adds to it. */
  lemma RejectedOnUnknownBucket(log: LogState, e: BucketLog.Entry, j: Job)
    requires Consistent(log) && !Exists(log, e.id) && !Validate(log, e).Appended? && j.id == e.id
    ensures Execute(Append(log, e), j).log == Append(log, e)
  {
    var after := Append(log, e);
    ConsistentKnows(log, e.id);
    RejectedAppendIsSilent(log, e);
    assert forall l :: Sync.Logged(after, e.id, l) <==> Sync.Logged(log, e.id, l);
    Sync.NewestIsLogged(after, e.id, j.target);
    if Sync.FindAncestor(after, e.id, j.available, j.target).Ok? {
      Sync.AncestorIsNewest(after, e.id, j.available, j.target);
    }
  }

  /** A genesis that its writer can follow into an unknown bucket. */
  function GenesisJob(id: Uuid): Job {
    var m := InitialManifest(id, "", SecretKey(0), 0);
    Job(0, id, {ManifestLink(m).hash}, ManifestLink(m))
  }

  lemma GenesisIsTaken(log: LogState, id: Uuid)
    requires !Exists(log, id)
    ensures GenesisJob(id).target in Heads(Execute(log, GenesisJob(id)).log, id, 0)
  {
    var j := GenesisJob(id);
    assert Sync.DownloadChain(j.available, j.target, None) == Sync.Ok([j.target]);
    assert Sync.CheckAuthors([j.target], None).Ok? by { assert [j.target][1..] == []; }
    assert Sync.Chosen(log, 0, id, j.available, j.target) == Sync.Ok(Some(j.target));
  }

  /** The job does the same on both logs, names aside. */
  ghost predicate Alike(a: LogState, b: LogState, j: Job) {
    Execute(a, j).result == Execute(b, j).result && SameButNames(Execute(a, j).log, Execute(b, j).log)
  }

  /** When a rejected append is harmless: every later job does what it would have done without it, if and only if the
      bucket was known. */
  lemma RejectedAppendHarmlessExactlyWhen(log: LogState, e: BucketLog.Entry)
    requires Consistent(log) && !Validate(log, e).Appended?
    ensures (forall j :: Alike(Append(log, e), log, j)) <==> Exists(log, e.id)
  {
    if Exists(log, e.id) {
      RejectedOnKnownBucket(log, e);
      forall j ensures Alike(Append(log, e), log, j) {
        JobIgnoresNames(Append(log, e), log, j);
      }
    } else {
      var j := GenesisJob(e.id);
      RejectedOnUnknownBucket(log, e, j);
      RejectedAppendIsSilent(log, e);
      GenesisIsTaken(log, e.id);
      assert !Alike(Append(log, e), log, j) by { assert Heads(log, e.id, 0) == []; }
    }
  }

  /** A genesis that claims another height than 0, signed by its writer. */
  function CrookedGenesis(id: Uuid, name: string, key: SecretKey, secret: Secret, height: nat): Link {
    ManifestLink(Sign(InitialManifest(id, name, key, secret).(height := height), key))
  }

  /** Such an append happens: a peer that follows a crooked genesis into an unknown bucket fails, and from then on no
      number of jobs, for whatever target, adds anything to that bucket. */
  lemma CrookedGenesisBlocksBucket(log: LogState, id: Uuid, name: string, key: SecretKey, secret: Secret, height: nat,
                                   jobs: seq<Job>)
    requires Consistent(log) && !Exists(log, id) && height > 0
    requires forall j :: j in jobs ==> j.id == id
    ensures var g := CrookedGenesis(id, name, key, secret, height);
            var o := Execute(log, Job(key.public, id, {g.hash}, g));
            o.result == Sync.Err(Sync.AppendRejected) && RunJobs(o.log, jobs) == o.log
  {
    var g := CrookedGenesis(id, name, key, secret, height);
    var o := Execute(log, Job(key.public, id, {g.hash}, g));
    CrookedIsRejected(log, id, name, key, secret, height);
    BlockedForEver(log, Sync.EntryOf(id, g), jobs);
  }

  lemma CrookedIsRejected(log: LogState, id: Uuid, name: string, key: SecretKey, secret: Secret, height: nat)
    requires !Exists(log, id) && height > 0
    ensures var g := CrookedGenesis(id, name, key, secret, height);
            && !Validate(log, Sync.EntryOf(id, g)).Appended?
            && Execute(log, Job(key.public, id, {g.hash}, g))
               == Sync.JobOutcome(Sync.Err(Sync.AppendRejected), Append(log, Sync.EntryOf(id, g)))
  {
    var g := CrookedGenesis(id, name, key, secret, height);
    assert Sync.DownloadChain({g.hash}, g, None) == Sync.Ok([g]);
    assert Sync.CheckAuthors([g], None).Ok? by { assert [g][1..] == []; }
    assert Sync.Chosen(log, key.public, id, {g.hash}, g) == Sync.Ok(Some(g));
  }

  lemma {:induction false} BlockedForEver(log: LogState, e: BucketLog.Entry, jobs: seq<Job>)
    requires Consistent(log) && !Exists(log, e.id) && !Validate(log, e).Appended?
    requires forall j :: j in jobs ==> j.id == e.id
    ensures RunJobs(Append(log, e), jobs) == Append(log, e)
  {
    if jobs != [] {
      BlockedForEver(log, e, jobs[..|jobs| - 1]);
      RejectedOnUnknownBucket(log, e, jobs[|jobs| - 1]);
    }
  }

  // ---------- a version whose author the ancestor does not know ----------

  lemma {:induction false} StuckStays(log: LogState, self: PublicKey, id: Uuid, available: set<Hash>, target: Link,
                                      n: nat)
    requires Sync.Execute(log, self, id, available, target).log == log
    ensures Repeat(log, self, id, available, target, n) == log
  {
    if n > 0 {
      StuckStays(log, self, id, available, target, n - 1);
    }
  }

  /** The second owner opens the first version and saves the next one. */
  function Joined(id: Uuid, name: string, a: SecretKey, b: SecretKey, secret: Secret, secret1: Secret)
    : Result<MountState>
  {
    var o := Save(Invited(id, name, a, b.public, secret), {}, false, secret1);
    Load(o.store, o.mount.link, b)
  }

  lemma JoinedIsUpright(id: Uuid, name: string, a: SecretKey, b: SecretKey, secret: Secret, secret1: Secret)
    requires a.public != b.public
    ensures var m, r := Second(id, name, a, b.public, secret, secret1), Joined(id, name, a, b, secret, secret1);
            && r.Ok? && Upright(r.value) && r.value.link == m.link && r.value.key == b
            && r.value.manifest == m.manifest && r.value.height == m.height
  {
    var invited := Invited(id, name, a, b.public, secret);
    SecondIsUpright(id, name, a, b.public, secret, secret1);
    assert SharesKeyed(invited.manifest.shares);
    SaveLoad.RoundTripByRole(invited, {}, false, secret1, b);
  }

  /** A correct history that a peer never follows. The writer of a bucket invites a second owner in its first version,
      who saves the second. A peer that has only the genesis finds the second owner not in its shares: each job for the
      second version fails and changes nothing, although every version is properly authored and can be fetched. */
  lemma NewOwnersVersionIsNotFollowed(id: Uuid, name: string, a: SecretKey, b: SecretKey, secret: Secret,
                                      secret1: Secret, secret2: Secret, publish: bool, available: set<Hash>, n: nat)
    requires a.public != b.public
    requires Joined(id, name, a, b, secret, secret1).Ok? ==>
               Supplied(available, Saved(Joined(id, name, a, b, secret, secret1).value, publish, secret2))
    ensures Joined(id, name, a, b, secret, secret1).Ok?
    ensures var g := Init(id, name, a, secret).link;
            var v := Saved(Joined(id, name, a, b, secret, secret1).value, publish, secret2);
            && HeightsCount(g) && GoodTarget(v, a.public) && !AuthorKnown(LogOf(id, g), id, v)
            && Sync.Execute(LogOf(id, g), a.public, id, available, v).result.Err?
            && Repeat(LogOf(id, g), a.public, id, available, v, n) == LogOf(id, g)
  {
    JoinedIsUpright(id, name, a, b, secret, secret1);
    var m, g := Joined(id, name, a, b, secret, secret1).value, Init(id, name, a, secret).link;
    var v := Saved(m, publish, secret2);
    NewOwnersVersionIsGood(id, name, a, b, secret, secret1, secret2, publish);
    SecondOwnerIsNew(id, name, a, b, secret, secret1, publish, secret2);
    NotFollowed(id, g, m.link, v, a.public, available, n);
  }

  lemma NewOwnersVersionIsGood(id: Uuid, name: string, a: SecretKey, b: SecretKey, secret: Secret, secret1: Secret,
                               secret2: Secret, publish: bool)
    requires a.public != b.public && Joined(id, name, a, b, secret, secret1).Ok?
    ensures var m, g := Joined(id, name, a, b, secret, secret1).value, Init(id, name, a, secret).link;
            var v := Saved(m, publish, secret2);
            && Chain(g) == [g] && Chain(v) == [g, m.link, v] && HeightsCount(g) && GoodTarget(v, a.public)
  {
    InitIsUpright(id, name, a, secret);
    JoinedIsUpright(id, name, a, b, secret, secret1);
    SecondIsUpright(id, name, a, b.public, secret, secret1);
    SavedContinues(Joined(id, name, a, b, secret, secret1).value, publish, secret2);
    SecondOwnerIsNew(id, name, a, b, secret, secret1, publish, secret2);
  }

  /** A peer on the genesis does not follow a version whose author the genesis does not list. */
  lemma NotFollowed(id: Uuid, g: Link, v1: Link, v: Link, self: PublicKey, available: set<Hash>, n: nat)
    requires Chain(g) == [g] && Chain(v) == [g, v1, v] && HeightsCount(g) && GoodTarget(v, self)
             && Supplied(available, v)
    requires !AuthorListed(v, g)
    ensures !AuthorKnown(LogOf(id, g), id, v)
    ensures Sync.Execute(LogOf(id, g), self, id, available, v).result.Err?
    ensures Repeat(LogOf(id, g), self, id, available, v, n) == LogOf(id, g)
  {
    LogOfHead(id, g, (l: Link) => 0);
    OnlyGenesisLogged(LogOf(id, g), id, g, v1, v);
    GoodIsPassable(LogOf(id, g), self, id, available, v);
    JobProgressExactlyWhen(LogOf(id, g), self, id, available, v);
    StuckStays(LogOf(id, g), self, id, available, v, n);
  }

  lemma OnlyGenesisLogged(log: LogState, id: Uuid, g: Link, v1: Link, v: Link)
    requires Chain(g) == [g] && Chain(v) == [g, v1, v] && forall l :: Sync.Logged(log, id, l) <==> l in Chain(g)
    ensures Sync.Newest(log, id, v) == Some(g) && Missing(log, id, v) > 0
  {
    Ping.ChainElement(v, 2);
    Ping.ChainElement(v, 1);
    assert Previous(v) == Some(v1) && Previous(v1) == Some(g);
    assert Chain(v1) == [g, v1];
    assert !Sync.Logged(log, id, v1) && !Sync.Logged(log, id, v) && Sync.Logged(log, id, g);
    assert Sync.Newest(log, id, v1) == Some(g);
  }

  lemma SecondOwnerIsNew(id: Uuid, name: string, a: SecretKey, b: SecretKey, secret: Secret, secret1: Secret,
                         publish: bool, secret2: Secret)
    requires a.public != b.public && Joined(id, name, a, b, secret, secret1).Ok?
    ensures var g := Init(id, name, a, secret).link;
            var v := Saved(Joined(id, name, a, b, secret, secret1).value, publish, secret2);
            !AuthorListed(v, g) && v.hash.blob.ManifestBlob? && a.public in v.hash.blob.manifest.shares
  {
    JoinedIsUpright(id, name, a, b, secret, secret1);
  }

  // ---------- a version that a mirror saved ----------

  /** Versions that are not properly authored are never logged by sync jobs. */
  lemma ImproperIsNeverLogged(log: LogState, jobs: seq<Job>, id: Uuid, h: nat, v: Link)
    requires Consistent(log) && !ProperlyAuthored(v) && v !in Heads(log, id, h)
    ensures v !in Heads(RunJobs(log, jobs), id, h)
  {
    SyncedVersionsAreAuthored(log, jobs, id, h, v);
  }

  /** No sequence of jobs, for whatever buckets and targets, logs the version where it was not logged. */
  ghost predicate NeverLogged(v: Link) {
    forall log, jobs, id, h :: Consistent(log) && v !in Heads(log, id, h) ==> v !in Heads(RunJobs(log, jobs), id, h)
  }

  lemma ImproperIsNeverLoggedAnywhere(v: Link)
    requires !ProperlyAuthored(v)
    ensures NeverLogged(v)
  {
    forall log, jobs, id, h | Consistent(log) && v !in Heads(log, id, h)
      ensures v !in Heads(RunJobs(log, jobs), id, h)
    {
      ImproperIsNeverLogged(log, jobs, id, h, v);
    }
  }

  /** A bucket with a mirror, not yet saved. */
  function Mirrored(id: Uuid, name: string, a: SecretKey, b: PublicKey, secret: Secret): MountState {
    AddMirror(Init(id, name, a, secret), b)
  }

  /** A mirror loads a published version ... */
  function MirrorLoads(id: Uuid, name: string, a: SecretKey, b: SecretKey, secret: Secret, secret1: Secret)
    : seq<Action>
  {
    [DoInit(0, id, name, a, secret)] + [DoAddMirror(0, b.public)] + [DoSave(0, true, secret1)]
    + [DoLoad(1, Saved(Mirrored(id, name, a, b.public, secret), true, secret1), b)]
  }

  /** ... and saves it again. */
  function MirrorRun(id: Uuid, name: string, a: SecretKey, b: SecretKey, secret: Secret, secret1: Secret, publish: bool,
                     secret2: Secret): seq<Action>
  {
    MirrorLoads(id, name, a, b, secret, secret1) + [DoSave(1, publish, secret2)]
  }

  lemma RunOfMore(actions: seq<Action>, a: Action)
    ensures RunOf(actions + [a]) == Next(RunOf(actions), a)
  {
    assert (actions + [a])[..|actions|] == actions;
  }

  /** Saving lets a mirror write a version, and no peer ever accepts it: its author check fails, and no sequence of jobs
      logs it where it was not logged. */
  lemma MirrorsVersionIsRefused(id: Uuid, name: string, a: SecretKey, b: SecretKey, secret: Secret, secret1: Secret,
                                publish: bool, secret2: Secret)
    requires a.public != b.public
    ensures var v1 := Saved(Mirrored(id, name, a, b.public, secret), true, secret1);
            var actions := MirrorRun(id, name, a, b, secret, secret1, publish, secret2);
            var w := RunOf(actions);
            && 1 in w.mounts && Histories.Stored(w.store, w.mounts[1].link)
            && Sync.VerifyAuthor(w.mounts[1].link.hash.blob.manifest, Some(v1.hash.blob.manifest))
               == Sync.Err(Sync.AuthorNotWriter)
            && NeverLogged(w.mounts[1].link) && !Histories.OwnersSave(actions)
  {
    var actions := MirrorRun(id, name, a, b, secret, secret1, publish, secret2);
    var m := OpenedByMirror(id, name, a, b, secret, secret1, InitPuts(id, name, a, secret)).value;
    MirrorOpens(id, name, a, b, secret, secret1, InitPuts(id, name, a, secret));
    MirrorRunEnds(id, name, a, b, secret, secret1, publish, secret2);
    MirrorsSaveFailsCheck(m, publish, secret2);
    ImproperIsNeverLoggedAnywhere(Saved(m, publish, secret2));
    Histories.AuthoredExactlyWhen(actions);
  }

  /** The published version, opened by the mirror. */
  function OpenedByMirror(id: Uuid, name: string, a: SecretKey, b: SecretKey, secret: Secret, secret1: Secret,
                          store: Store)
    : Result<MountState>
  {
    var o := Save(Mirrored(id, name, a, b.public, secret), store, true, secret1);
    Load(o.store, o.mount.link, b)
  }

  lemma MirrorOpens(id: Uuid, name: string, a: SecretKey, b: SecretKey, secret: Secret, secret1: Secret, store: Store)
    requires a.public != b.public
    ensures var r := OpenedByMirror(id, name, a, b, secret, secret1, store);
            && r.Ok? && r.value.key == b
            && r.value.link == Saved(Mirrored(id, name, a, b.public, secret), true, secret1)
            && b.public in r.value.link.hash.blob.manifest.shares
            && r.value.link.hash.blob.manifest.shares[b.public].role.Mirror?
  {
    var m := Mirrored(id, name, a, b.public, secret);
    assert SharesKeyed(m.manifest.shares);
    SaveLoad.RoundTripByRole(m, store, true, secret1, b);
  }

  lemma MirrorsSaveFailsCheck(m: MountState, publish: bool, secret: Secret)
    requires m.link.hash.blob.ManifestBlob? && m.key.public in m.link.hash.blob.manifest.shares
    requires m.link.hash.blob.manifest.shares[m.key.public].role.Mirror?
    ensures Sync.VerifyAuthor(SavedManifest(m, publish, secret), Sync.ManifestOf(m.link))
            == Sync.Err(Sync.AuthorNotWriter)
    ensures !ProperlyAuthored(Saved(m, publish, secret))
  {}

  lemma InvitedWorld(id: Uuid, name: string, a: SecretKey, b: PublicKey, secret: Secret)
    ensures RunOf([DoInit(0, id, name, a, secret)] + [DoAddMirror(0, b)])
            == World(map[0 := Mirrored(id, name, a, b, secret)], InitPuts(id, name, a, secret))
  {
    RunOfMore([], DoInit(0, id, name, a, secret));
    assert [] + [DoInit(0, id, name, a, secret)] == [DoInit(0, id, name, a, secret)];
    RunOfMore([DoInit(0, id, name, a, secret)], DoAddMirror(0, b));
  }

  /** The world after the mirror has loaded. */
  lemma MirrorRunLoads(id: Uuid, name: string, a: SecretKey, b: SecretKey, secret: Secret, secret1: Secret)
    requires OpenedByMirror(id, name, a, b, secret, secret1, InitPuts(id, name, a, secret)).Ok?
    ensures var w := RunOf(MirrorLoads(id, name, a, b, secret, secret1));
            && 1 in w.mounts
            && w.mounts[1] == OpenedByMirror(id, name, a, b, secret, secret1, InitPuts(id, name, a, secret)).value
  {
    var invited, save := [DoInit(0, id, name, a, secret)] + [DoAddMirror(0, b.public)], DoSave(0, true, secret1);
    var load := DoLoad(1, Saved(Mirrored(id, name, a, b.public, secret), true, secret1), b);
    InvitedWorld(id, name, a, b.public, secret);
    RunOfMore(invited, save);
    RunOfMore(invited + [save], load);
  }

  lemma MirrorRunEnds(id: Uuid, name: string, a: SecretKey, b: SecretKey, secret: Secret, secret1: Secret,
                      publish: bool, secret2: Secret)
    requires a.public != b.public
    ensures var r := OpenedByMirror(id, name, a, b, secret, secret1, InitPuts(id, name, a, secret));
            var w := RunOf(MirrorRun(id, name, a, b, secret, secret1, publish, secret2));
            && r.Ok? && 1 in w.mounts && w.mounts[1].link == Saved(r.value, publish, secret2)
            && w.mounts[1].link.hash in w.store
  {
    MirrorOpens(id, name, a, b, secret, secret1, InitPuts(id, name, a, secret));
    MirrorRunLoads(id, name, a, b, secret, secret1);
    RunOfMore(MirrorLoads(id, name, a, b, secret, secret1), DoSave(1, publish, secret2));
  }
}
