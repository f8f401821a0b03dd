/** Concrete histories: forks that come together and forks that do not, and versions that peers refuse. */
module Forks {
  import opened Content
  import opened Mounts
  import opened Chains
  import opened BucketLog
  import opened SyncRuns
  import opened Ping
  import Histories
  import Sync

  // ---------- the log of one history ----------

  /** The log of a peer that has appended the history of a version, and nothing else. */
  ghost function LogOf(id: Uuid, link: Link): LogState
    requires HeightsCount(link)
    decreases link
  {
    HeightsCountWhen(link);
    var before := if Previous(link).None? then EMPTY_STATE else LogOf(id, Previous(link).value);
    Append(before, Sync.EntryOf(id, link))
  }

  lemma PrefixOfLonger(log: LogState, id: Uuid, link: Link, n: nat)
    requires Previous(link).Some? && HasPrefix(log, id, Previous(link).value, n)
    ensures HasPrefix(log, id, link, n)
  {
    var p := Previous(link).value;
    forall h: nat ensures Heads(log, id, h) == if h < n then [Chain(link)[h]] else [] {
      assert h < n ==> Chain(link)[h] == Chain(p)[h];
    }
  }

  lemma EmptyHolds(id: Uuid, top: Link)
    ensures Holds(EMPTY_STATE, id, top, 0)
  {
    assert AppendAll(EMPTY_STATE, []) == EMPTY_STATE;
    ValidAfterAnyAppends([]);
  }

  lemma {:induction false} LogOfHolds(id: Uuid, link: Link)
    requires HeightsCount(link)
    ensures Holds(LogOf(id, link), id, link, |Chain(link)|)
    decreases link
  {
    HeightsCountWhen(link);
    if Previous(link).None? {
      EmptyHolds(id, link);
      AppendNext(EMPTY_STATE, id, link, 0);
    } else {
      var p := Previous(link).value;
      LogOfHolds(id, p);
      PrefixOfLonger(LogOf(id, p), id, link, |Chain(p)|);
      AppendNext(LogOf(id, p), id, link, |Chain(p)|);
    }
  }

  lemma AppendNext(log: LogState, id: Uuid, link: Link, n: nat)
    requires HeightsCount(link) && Holds(log, id, link, n) && n == |Chain(link)| - 1
    ensures link.hash.blob.ManifestBlob? && Holds(Append(log, Sync.EntryOf(id, link)), id, link, n + 1)
  {
    HeldExactly(log, id, link, n);
    HoldsGrounded(log, id, link, n);
    ChainElement(link, n);
    assert Chain(link)[n] == link && link in Chain(link);
    FitsOn(log, id, link, link);
    OneMoreHeld(log, id, link, n);
  }

  lemma LogOfIsProper(id: Uuid, link: Link)
    requires HeightsCount(link)
    ensures Proper(LogOf(id, link), id)
  {
    LogOfHolds(id, link);
    HoldsGrounded(LogOf(id, link), id, link, |Chain(link)|);
  }

  lemma WholeReports(log: LogState, id: Uuid, link: Link, rank: Link -> nat)
    requires Holds(log, id, link, |Chain(link)|)
    ensures Head(log, id, None, rank) == Some((link, |Chain(link)| - 1))
  {
    HoldsLevel(log, id, link, |Chain(link)|, rank);
  }

  lemma LogOfReports(id: Uuid, link: Link, rank: Link -> nat)
    requires HeightsCount(link)
    ensures Head(LogOf(id, link), id, None, rank) == Some((link, |Chain(link)| - 1))
  {
    LogOfHolds(id, link);
    WholeReports(LogOf(id, link), id, link, rank);
  }

  lemma LogOfLogs(id: Uuid, link: Link, l: Link)
    requires HeightsCount(link)
    ensures Sync.Logged(LogOf(id, link), id, l) <==> l in Chain(link)
  {
    LogOfHolds(id, link);
    HoldsLogged(LogOf(id, link), id, link, |Chain(link)|, l);
    assert Chain(link)[..|Chain(link)|] == Chain(link);
  }

  /** Such a log is proper, its head is the version, and it has logged the history of the version. */
  lemma LogOfHead(id: Uuid, link: Link, rank: Link -> nat)
    requires HeightsCount(link)
    ensures Proper(LogOf(id, link), id)
    ensures Head(LogOf(id, link), id, None, rank) == Some((link, |Chain(link)| - 1))
    ensures forall l :: Sync.Logged(LogOf(id, link), id, l) <==> l in Chain(link)
  {
    LogOfIsProper(id, link);
    LogOfReports(id, link, rank);
    forall l ensures Sync.Logged(LogOf(id, link), id, l) <==> l in Chain(link) {
      LogOfLogs(id, link, l);
    }
  }

  // ---------- versions of one bucket ----------

  /** The mount stands on a counted, properly authored history, as an owner of its last version and of the next. */
  ghost predicate Upright(m: MountState) {
    && HeightsCount(m.link) && m.link.hash.blob.ManifestBlob? && m.link.hash.blob.manifest.height == m.height
    && (forall l :: l in Chain(m.link) ==> ProperlyAuthored(l))
    && Histories.StandsAsOwner(m)
  }

  function Saved(m: MountState, publish: bool, secret: Secret): Link {
    ManifestLink(SavedManifest(m, publish, secret))
  }

  /** A version saved there continues the history, and passes the check of every peer. */
  lemma SavedContinues(m: MountState, publish: bool, secret: Secret)
    requires Upright(m)
    ensures var v := Saved(m, publish, secret);
            && Chain(v) == Chain(m.link) + [v] && HeightsCount(v)
            && (forall l :: l in Chain(v) ==> ProperlyAuthored(l))
  {
    var v := Saved(m, publish, secret);
    assert Previous(v) == Some(m.link);
    HeightsCountWhen(v);
    Histories.SavedIsAuthoredWhen(m, publish, secret);
  }

  lemma InitIsUpright(id: Uuid, name: string, key: SecretKey, secret: Secret)
    ensures var m := Init(id, name, key, secret); Upright(m) && Chain(m.link) == [m.link]
  {
    var m := Init(id, name, key, secret);
    HeightsCountWhen(m.link);
  }

  /** A new bucket with a second owner, not yet saved. */
  function Invited(id: Uuid, name: string, a: SecretKey, b: PublicKey, secret: Secret): MountState {
    AddOwner(Init(id, name, a, secret), b)
  }

  /** Its first version, and the mount on it. */
  function Second(id: Uuid, name: string, a: SecretKey, b: PublicKey, secret: Secret, secret1: Secret): MountState {
    Save(Invited(id, name, a, b, secret), {}, false, secret1).mount
  }

  lemma SecondIsUpright(id: Uuid, name: string, a: SecretKey, b: PublicKey, secret: Secret, secret1: Secret)
    requires a.public != b
    ensures var m, g := Second(id, name, a, b, secret, secret1), Init(id, name, a, secret).link;
            Upright(m) && Chain(m.link) == [g, m.link] && b in m.manifest.shares && a.public in m.manifest.shares
  {
    InitIsUpright(id, name, a, secret);
    var invited := Invited(id, name, a, b, secret);
    assert Upright(invited);
    SavedContinues(invited, false, secret1);
  }

  // ---------- forks ----------

  /** Peers at one height on different versions are told that they are in sync and stay apart for ever: two first
      versions saved from one genesis. */
  lemma ForkAtOneHeightStays(id: Uuid, name: string, a: SecretKey, b: PublicKey, secret: Secret, secret1: Secret,
                             secret2: Secret, self1: PublicKey, self2: PublicKey, available: set<Hash>,
                             rank: Link -> nat, starts: seq<bool>)
    requires a.public != b && secret1 != secret2
    ensures var v, w := Second(id, name, a, b, secret, secret1).link, Second(id, name, a, b, secret, secret2).link;
            HeightsCount(v) && HeightsCount(w) &&
            var p, q := Peer(LogOf(id, v), self1), Peer(LogOf(id, w), self2);
            var r := Rounds(p, q, id, available, rank, starts);
            && HandleMessage(q.log, id, 1, rank) == InSync
            && Head(r.0.log, id, None, rank) == Some((v, 1)) && Head(r.1.log, id, None, rank) == Some((w, 1)) && v != w
  {
    SecondIsUpright(id, name, a, b, secret, secret1);
    SecondIsUpright(id, name, a, b, secret, secret2);
    var v, w := Second(id, name, a, b, secret, secret1).link, Second(id, name, a, b, secret, secret2).link;
    DifferentSaves(Invited(id, name, a, b, secret), secret1, secret2);
    LogOfHead(id, v, rank);
    LogOfHead(id, w, rank);
    LevelPeersStay(Peer(LogOf(id, v), self1), Peer(LogOf(id, w), self2), id, available, rank, starts);
  }

  lemma DifferentSaves(m: MountState, secret1: Secret, secret2: Secret)
    requires secret1 != secret2
    ensures Saved(m, false, secret1) != Saved(m, false, secret2)
  {
    assert SavedManifest(m, false, secret1).entry != SavedManifest(m, false, secret2).entry;
  }

  /** The lower of two forks comes over: one peer has the genesis and a first version `w`; the other one has another
      first version and a second on top of it. After two rounds, and not before, both report that second version. */
  lemma LowerForkComesOver(id: Uuid, name: string, a: SecretKey, b: PublicKey, secret: Secret, secret1: Secret,
                           secret2: Secret, secret3: Secret, available: set<Hash>, rank: Link -> nat, starts: seq<bool>)
    requires a.public != b && secret1 != secret2
    requires Supplied(available, Saved(Second(id, name, a, b, secret, secret1), false, secret3))
    ensures var w := Second(id, name, a, b, secret, secret2).link;
            var top := Saved(Second(id, name, a, b, secret, secret1), false, secret3);
            HeightsCount(w) && HeightsCount(top) &&
            var r := Rounds(Peer(LogOf(id, w), b), Peer(LogOf(id, top), a.public), id, available, rank, starts);
            && (Head(r.0.log, id, None, rank) == Head(r.1.log, id, None, rank) <==> |starts| >= 2)
            && Head(r.1.log, id, None, rank) == Some((top, 2))
  {
    var m := Second(id, name, a, b, secret, secret1);
    var g, w, top := Init(id, name, a, secret).link, Second(id, name, a, b, secret, secret2).link,
        Saved(m, false, secret3);
    SecondIsUpright(id, name, a, b, secret, secret2);
    DifferentSaves(Invited(id, name, a, b, secret), secret1, secret2);
    ThirdIsGood(id, name, a, b, secret, secret1, secret3);
    ForkMeets(id, g, m.link, w, top, a.public, b, available, rank, starts);
  }

  lemma ThirdIsGood(id: Uuid, name: string, a: SecretKey, b: PublicKey, secret: Secret, secret1: Secret,
                    secret3: Secret)
    requires a.public != b
    ensures var g, m := Init(id, name, a, secret).link, Second(id, name, a, b, secret, secret1);
            var top := Saved(m, false, secret3);
            && Chain(top) == [g, m.link, top] && HeightsCount(top) && GoodTarget(top, b) && FixedShares(top)
  {
    SecondIsUpright(id, name, a, b, secret, secret1);
    SavedContinues(Second(id, name, a, b, secret, secret1), false, secret3);
    OwnerAllAlong(id, name, a, b, secret, secret1, secret3);
  }

  lemma OwnerAllAlong(id: Uuid, name: string, a: SecretKey, b: PublicKey, secret: Secret, secret1: Secret,
                      secret3: Secret)
    requires a.public != b
    ensures var m := Second(id, name, a, b, secret, secret1);
            var top := Saved(m, false, secret3);
            && top.hash.blob.ManifestBlob? && b in top.hash.blob.manifest.shares
            && AuthorListed(top, Init(id, name, a, secret).link) && AuthorListed(top, m.link) && AuthorListed(top, top)
  {}

  lemma ForkMeets(id: Uuid, g: Link, v: Link, w: Link, top: Link, a: PublicKey, b: PublicKey, available: set<Hash>,
                  rank: Link -> nat, starts: seq<bool>)
    requires Chain(w) == [g, w] && Chain(top) == [g, v, top] && v != w && HeightsCount(w) && HeightsCount(top)
    requires GoodTarget(top, b) && Supplied(available, top) && FixedShares(top)
    ensures var r := Rounds(Peer(LogOf(id, w), b), Peer(LogOf(id, top), a), id, available, rank, starts);
            && (Head(r.0.log, id, None, rank) == Head(r.1.log, id, None, rank) <==> |starts| >= 2)
            && Head(r.1.log, id, None, rank) == Some((top, 2))
  {
    var low, high := Peer(LogOf(id, w), b), Peer(LogOf(id, top), a);
    LogOfHead(id, w, rank);
    LogOfHead(id, top, rank);
    TwoMissing(low.log, id, g, v, w, top);
    FixedSharesKnown(low.log, id, top);
    GoodIsPassable(low.log, b, id, available, top);
    PeersConvergeExactlyWhen(low, high, id, available, rank, starts);
    LowerIsUnder(low, high, id, rank);
    RoundsAreJobs(low, high, id, available, rank, top, starts);
  }

  lemma TwoMissing(log: LogState, id: Uuid, g: Link, v: Link, w: Link, top: Link)
    requires Chain(w) == [g, w] && Chain(top) == [g, v, top] && v != w
    requires Proper(log, id) && forall l :: Sync.Logged(log, id, l) <==> l in Chain(w)
    ensures SharesHistory(log, id, top) && Missing(log, id, top) == 2
  {
    ChainElement(top, 0);
    ChainElement(top, 1);
    assert Previous(top) == Some(v) && Previous(v) == Some(g) && Previous(g) == None by { ChainElement(top, 2); }
    assert Chain(v) == [g, v] && Chain(g) == [g];
    assert v != g && top != g && top != w;
    assert Sync.Logged(log, id, g) && !Sync.Logged(log, id, v) && !Sync.Logged(log, id, top);
    assert g in Chain(top);
    LoggedIsShared(log, id, top, g);
    assert Missing(log, id, v) == 1;
  }
}
