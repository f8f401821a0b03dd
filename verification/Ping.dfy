/** The ping exchange between two peers, and how repeated exchanges bring them together. */
module Ping {
  import opened Content
  import opened BucketLog
  import opened Chains
  import opened Sync
  import opened SyncRuns

  datatype Status = NotFound | Ahead(link: Link, height: nat) | Behind(link: Link, height: nat) | InSync

  /** The responder compares heights. */
  function HandleMessage(log: LogState, id: Uuid, height: nat, rank: Link -> nat): Status {
    match Head(log, id, None, rank)
    case None => NotFound
    case Some((ownLink, own)) =>
      if own < height then Behind(ownLink, own)
      else if own == height then InSync
      else Ahead(ownLink, own)
  }

  /** How far a peer is: the number of heights it has occupied. */
  function Level(log: LogState, id: Uuid, rank: Link -> nat): nat {
    match Head(log, id, None, rank) case None => 0 case Some((_, height)) => height + 1
  }

  /** The answer compares levels, and carries the head of the responder whenever the two differ. */
  lemma StatusIs(log: LogState, id: Uuid, height: nat, rank: Link -> nat)
    ensures var status, level := HandleMessage(log, id, height, rank), Level(log, id, rank);
            && (status.NotFound? <==> level == 0)
            && (status.InSync? <==> level == height + 1)
            && (status.Behind? <==> 0 < level < height + 1)
            && (status.Ahead? <==> level > height + 1)
            && (status.Behind? || status.Ahead? ==> Head(log, id, None, rank) == Some((status.link, status.height)))
  {}

  /** What the responder then syncs to: the version it was pinged with, if it is behind it or has none. */
  function ResponderTarget(status: Status, link: Link): Option<Link> {
    if status.Behind? || status.NotFound? then Some(link) else None
  }

  /** What the initiator then syncs to: the version it was told about, if the other is ahead. */
  function InitiatorTarget(status: Status): Option<Link> {
    if status.Ahead? then Some(status.link) else None
  }

  /** The jobs of an exchange, for initiator and responder. Without a head nothing is sent. */
  function Exchange(initiator: LogState, responder: LogState, id: Uuid, rank: Link -> nat)
    : (Option<Link>, Option<Link>)
  {
    match Head(initiator, id, None, rank)
    case None => (None, None)
    case Some((link, height)) =>
      var status := HandleMessage(responder, id, height, rank);
      (InitiatorTarget(status), ResponderTarget(status, link))
  }

  /** An exchange that is sent gives at most one job: to the lower side, for the head of the higher one; and none
      exactly when both are at the same level. */
  lemma ExchangeServesTheLower(initiator: LogState, responder: LogState, id: Uuid, rank: Link -> nat)
    requires Head(initiator, id, None, rank).Some?
    ensures var (forInitiator, forResponder) := Exchange(initiator, responder, id, rank);
            var a, b := Level(initiator, id, rank), Level(responder, id, rank);
            && (forInitiator.Some? <==> a < b)
            && (forResponder.Some? <==> b < a)
            && (forInitiator.Some? ==> forInitiator.value == Head(responder, id, None, rank).value.0)
            && (forResponder.Some? ==> forResponder.value == Head(initiator, id, None, rank).value.0)
  {}

  // ---------- rounds ----------

  datatype Peer = Peer(log: LogState, self: PublicKey)

  function Synced(p: Peer, id: Uuid, available: set<Hash>, target: Option<Link>): Peer {
    if target.None? then p else p.(log := Execute(p.log, p.self, id, available, target.value).log)
  }

  /** One exchange and the job it leads to. The manifests either side needs can be fetched. */
  function Round(initiator: Peer, responder: Peer, id: Uuid, available: set<Hash>, rank: Link -> nat): (Peer, Peer) {
    var (forInitiator, forResponder) := Exchange(initiator.log, responder.log, id, rank);
    (Synced(initiator, id, available, forInitiator), Synced(responder, id, available, forResponder))
  }

  /** Rounds in which either side may start; a side without a head has nothing to send, so the other one starts. */
  function Rounds(a: Peer, b: Peer, id: Uuid, available: set<Hash>, rank: Link -> nat, starts: seq<bool>)
    : (Peer, Peer)
  {
    if starts == [] then (a, b) else
    var (x, y) := Rounds(a, b, id, available, rank, starts[..|starts| - 1]);
    if (starts[|starts| - 1] && Level(x.log, id, rank) > 0) || Level(y.log, id, rank) == 0 then
      Round(x, y, id, available, rank)
    else
      var (y', x') := Round(y, x, id, available, rank);
      (x', y')
  }

  /** What a round does, by the heads the peers report. */
  lemma RoundByHeads(a: Peer, b: Peer, id: Uuid, available: set<Hash>, rank: Link -> nat)
    requires Head(a.log, id, None, rank).Some?
    ensures var na, nb := Level(a.log, id, rank), Level(b.log, id, rank);
            Round(a, b, id, available, rank)
            == if na < nb then (Synced(a, id, available, Some(Head(b.log, id, None, rank).value.0)), b)
               else if nb < na then (a, Synced(b, id, available, Some(Head(a.log, id, None, rank).value.0)))
               else (a, b)
  {
    ExchangeServesTheLower(a.log, b.log, id, rank);
  }

  lemma {:induction false} LevelPeersStay(a: Peer, b: Peer, id: Uuid, available: set<Hash>, rank: Link -> nat,
                                          starts: seq<bool>)
    requires Level(a.log, id, rank) == Level(b.log, id, rank)
    ensures Rounds(a, b, id, available, rank, starts) == (a, b)
  {
    if starts != [] {
      LevelPeersStay(a, b, id, available, rank, starts[..|starts| - 1]);
      if Level(a.log, id, rank) > 0 {
        RoundByHeads(a, b, id, available, rank);
        RoundByHeads(b, a, id, available, rank);
      }
    }
  }

  // ---------- logs with forks ----------

  /** In a proper log the history of every logged version is counted by its heights. */
  lemma {:induction false} LoggedIsCounted(log: LogState, id: Uuid, h: nat, l: Link)
    requires Proper(log, id) && l in Heads(log, id, h)
    ensures HeightsCount(l) && l.hash.blob.ManifestBlob? && l.hash.blob.manifest.height == h
    decreases l
  {
    assert Seated(log, id, h, l);
    HeightsCountWhen(l);
    if Previous(l).Some? {
      LoggedIsCounted(log, id, h - 1, Previous(l).value);
    }
  }

  /** Nothing is at the height of the target or above it, except the target. */
  ghost predicate Under(log: LogState, id: Uuid, target: Link)
    requires target.hash.blob.ManifestBlob?
  {
    forall h: nat, l :: l in Heads(log, id, h) && h >= target.hash.blob.manifest.height ==> l == target
  }

  /** Such a log reports the target as its head exactly when it has logged it, and is lower otherwise. */
  lemma HeadWhileUnder(log: LogState, id: Uuid, target: Link, rank: Link -> nat)
    requires Proper(log, id) && target.hash.blob.ManifestBlob? && Under(log, id, target)
    ensures var h := target.hash.blob.manifest.height;
            if Logged(log, id, target) then Head(log, id, None, rank) == Some((target, h))
            else Level(log, id, rank) <= h
  {
    var h := target.hash.blob.manifest.height;
    if Logged(log, id, target) {
      LoggedAtOwnHeight(log, id, target);
      OnlyHead(log, id, target, rank);
    } else {
      UnloggedIsNowhere(log, id, target, h);
      NoneUnder(log, id, target);
    }
  }

  lemma NoneUnder(log: LogState, id: Uuid, target: Link)
    requires target.hash.blob.ManifestBlob? && Under(log, id, target)
    requires target !in Heads(log, id, target.hash.blob.manifest.height)
    ensures Heads(log, id, target.hash.blob.manifest.height) == []
  {
    OnlyOrNone(Heads(log, id, target.hash.blob.manifest.height), target);
  }

  lemma OnlyOrNone(links: seq<Link>, only: Link)
    requires forall l :: l in links ==> l == only
    ensures only in links || links == []
  {
    assert links != [] ==> links[0] in links;
  }

  lemma OnlyHead(log: LogState, id: Uuid, target: Link, rank: Link -> nat)
    requires Proper(log, id) && target.hash.blob.ManifestBlob? && Under(log, id, target)
    requires target in Heads(log, id, target.hash.blob.manifest.height)
    ensures Head(log, id, None, rank) == Some((target, target.hash.blob.manifest.height))
  {
    var h := target.hash.blob.manifest.height;
    assert Heads(log, id, h) != [];
    var max := Height(log, id).value;
    assert Heads(log, id, max) != [] && max >= h;
    var top := Heads(log, id, max)[0];
    assert top in Heads(log, id, max) && top == target && Seated(log, id, max, target);
  }

  /** A job for the target appends only versions of its history, and these are below the target. */
  lemma JobStaysUnder(log: LogState, self: PublicKey, id: Uuid, available: set<Hash>, target: Link)
    requires Proper(log, id) && HeightsCount(target) && target.hash.blob.ManifestBlob? && Under(log, id, target)
    ensures Proper(Execute(log, self, id, available, target).log, id)
    ensures Under(Execute(log, self, id, available, target).log, id, target)
  {
    var after, chosen := Execute(log, self, id, available, target).log, Chosen(log, self, id, available, target);
    JobKeepsConsistent(log, Job(self, id, available, target));
    JobKeepsGrounded(log, Job(self, id, available, target));
    if chosen.Ok? && chosen.value.Some? {
      ChosenIsBelow(log, self, id, available, target);
      AppendStaysUnder(log, EntryOf(id, chosen.value.value), target);
    }
  }

  lemma ChosenIsBelow(log: LogState, self: PublicKey, id: Uuid, available: set<Hash>, target: Link)
    requires Consistent(log) && HeightsCount(target) && target.hash.blob.ManifestBlob?
    ensures var chosen := Chosen(log, self, id, available, target);
            chosen.Ok? && chosen.value.Some? ==>
              var l := chosen.value.value;
              l == target || l.hash.blob.manifest.height < target.hash.blob.manifest.height
  {
    ConsistentKnows(log, id);
    JobAppendsOne(log, self, id, available, target);
    SegmentIsContiguous(log, id, target);
    var chosen := Chosen(log, self, id, available, target);
    if chosen.Ok? && chosen.value.Some? {
      var l := chosen.value.value;
      assert l in Segment(log, id, target) && l in Chain(target);
      if l != target {
        BelowInChain(target, l);
      }
    }
  }

  lemma BelowInChain(target: Link, l: Link)
    requires HeightsCount(target) && l in Chain(target) && l != target
    ensures l.hash.blob.ManifestBlob? && target.hash.blob.ManifestBlob?
            && l.hash.blob.manifest.height < target.hash.blob.manifest.height
  {
    ChainIsPrefix(target, l);
    assert target in Chain(target);
    assert |Chain(l)| == |Chain(target)| ==> Chain(l) == Chain(target);
  }

  lemma AppendStaysUnder(log: LogState, e: Entry, target: Link)
    requires target.hash.blob.ManifestBlob? && Under(log, e.id, target)
    requires e.current == target || e.height < target.hash.blob.manifest.height
    ensures Under(Append(log, e), e.id, target)
  {
    forall h: nat, l | l in Heads(Append(log, e), e.id, h) && h >= target.hash.blob.manifest.height
      ensures l == target
    {
      if Validate(log, e).Appended? {
        HeadsOneMore(log, e, e.id, h, l);
      } else {
        RejectedAppendIsSilent(log, e);
      }
    }
  }

  // ---------- rounds are jobs ----------

  /** A peer after a number of jobs for a target. */
  function Jobs(p: Peer, id: Uuid, available: set<Hash>, target: Link, n: nat): Peer {
    p.(log := Repeat(p.log, p.self, id, available, target, n))
  }

  lemma JobsStayUnder(p: Peer, id: Uuid, available: set<Hash>, target: Link, n: nat)
    requires Proper(p.log, id) && HeightsCount(target) && target.hash.blob.ManifestBlob? && Under(p.log, id, target)
    ensures Proper(Jobs(p, id, available, target, n).log, id)
            && Under(Jobs(p, id, available, target, n).log, id, target)
  {
    if n > 0 {
      JobsStayUnder(p, id, available, target, n - 1);
      JobStaysUnder(Jobs(p, id, available, target, n - 1).log, p.self, id, available, target);
    }
  }

  /** The head of the higher peer, and where the lower one stands to it. */
  lemma LowerIsUnder(low: Peer, high: Peer, id: Uuid, rank: Link -> nat)
    requires Proper(low.log, id) && Proper(high.log, id) && Level(low.log, id, rank) < Level(high.log, id, rank)
    ensures var head := Head(high.log, id, None, rank);
            && head.Some? && HeightsCount(head.value.0) && head.value.0.hash.blob.ManifestBlob?
            && head.value.0.hash.blob.manifest.height == head.value.1
            && Under(low.log, id, head.value.0) && !Logged(low.log, id, head.value.0)
  {
    var (target, h) := Head(high.log, id, None, rank).value;
    LoggedIsCounted(high.log, id, h, target);
    assert Heads(low.log, id, h) == [];
    if Logged(low.log, id, target) {
      LoggedAtOwnHeight(low.log, id, target);
    }
  }

  /** One round between a peer under the target and a peer whose head it is, whoever starts it, is one job. */
  lemma RoundIsJob(low: Peer, high: Peer, id: Uuid, available: set<Hash>, rank: Link -> nat, target: Link)
    requires Proper(low.log, id) && target.hash.blob.ManifestBlob? && Under(low.log, id, target)
    requires Head(high.log, id, None, rank) == Some((target, target.hash.blob.manifest.height))
    ensures var next := Synced(low, id, available, Some(target));
            && Round(high, low, id, available, rank) == (high, next)
            && (Level(low.log, id, rank) > 0 ==> Round(low, high, id, available, rank) == (next, high))
  {
    HeadWhileUnder(low.log, id, target, rank);
    RoundByHeads(high, low, id, available, rank);
    if Level(low.log, id, rank) > 0 {
      RoundByHeads(low, high, id, available, rank);
    }
    if Logged(low.log, id, target) {
      JobAtTargetIsNoOp(low.log, low.self, id, available, target);
    }
  }

  /** So rounds between a lower and a higher peer are jobs of the lower one for the head of the higher one, which stays
      as it is. */
  lemma {:induction false} RoundsAreJobs(low: Peer, high: Peer, id: Uuid, available: set<Hash>, rank: Link -> nat,
                                         target: Link, starts: seq<bool>)
    requires Proper(low.log, id) && HeightsCount(target) && target.hash.blob.ManifestBlob? && Under(low.log, id, target)
    requires Head(high.log, id, None, rank) == Some((target, target.hash.blob.manifest.height))
    ensures Rounds(low, high, id, available, rank, starts) == (Jobs(low, id, available, target, |starts|), high)
    ensures Rounds(high, low, id, available, rank, starts) == (high, Jobs(low, id, available, target, |starts|))
  {
    if starts != [] {
      var front := starts[..|starts| - 1];
      RoundsAreJobs(low, high, id, available, rank, target, front);
      JobsStayUnder(low, id, available, target, |front|);
      RoundIsJob(Jobs(low, id, available, target, |front|), high, id, available, rank, target);
    }
  }

  // ---------- convergence ----------

  /** The peer can follow the other's head. */
  ghost predicate CanFollowTo(low: Peer, id: Uuid, available: set<Hash>, target: Link) {
    CanFollow(low.log, low.self, id, available, target)
  }

  /** A lower and a higher peer, whatever forks they hold. */
  lemma LowerReachesHigher(low: Peer, high: Peer, id: Uuid, available: set<Hash>, rank: Link -> nat, n: nat)
    requires Proper(low.log, id) && Proper(high.log, id) && Level(low.log, id, rank) < Level(high.log, id, rank)
    ensures var head := Head(high.log, id, None, rank);
            Head(Jobs(low, id, available, head.value.0, n).log, id, None, rank) == head
            <==> CanFollowTo(low, id, available, head.value.0) && n >= Missing(low.log, id, head.value.0)
  {
    LowerIsUnder(low, high, id, rank);
    var target := Head(high.log, id, None, rank).value.0;
    JobsStayUnder(low, id, available, target, n);
    HeadWhileUnder(Jobs(low, id, available, target, n).log, id, target, rank);
    CatchesUp(low.log, low.self, id, available, target, n);
  }

  function Lower(a: Peer, b: Peer, id: Uuid, rank: Link -> nat): Peer {
    if Level(a.log, id, rank) < Level(b.log, id, rank) then a else b
  }

  function Higher(a: Peer, b: Peer, id: Uuid, rank: Link -> nat): Peer {
    if Level(a.log, id, rank) < Level(b.log, id, rank) then b else a
  }

  /** When two peers come to report the same head, whatever forks they hold and whoever starts each round. Either they
      do from the start; or their levels differ, the lower one can follow the head of the higher one, and there have
      been as many rounds as versions of that history are missing. Peers at one level on different versions never do.
      The common head is the one the higher peer had. */
  lemma PeersConvergeExactlyWhen(a: Peer, b: Peer, id: Uuid, available: set<Hash>, rank: Link -> nat, starts: seq<bool>)
    requires Proper(a.log, id) && Proper(b.log, id)
    ensures var r := Rounds(a, b, id, available, rank, starts);
            var low, head := Lower(a, b, id, rank), Head(Higher(a, b, id, rank).log, id, None, rank);
            && (Head(r.0.log, id, None, rank) == Head(r.1.log, id, None, rank) <==>
                  || Head(a.log, id, None, rank) == Head(b.log, id, None, rank)
                  || (&& Level(a.log, id, rank) != Level(b.log, id, rank)
                      && CanFollowTo(low, id, available, head.value.0)
                      && |starts| >= Missing(low.log, id, head.value.0)))
            && (Head(r.0.log, id, None, rank) == Head(r.1.log, id, None, rank)
                ==> Head(r.0.log, id, None, rank) == head)
  {
    var low, high := Lower(a, b, id, rank), Higher(a, b, id, rank);
    if Level(a.log, id, rank) == Level(b.log, id, rank) {
      LevelPeersStay(a, b, id, available, rank, starts);
    } else {
      LowerIsUnder(low, high, id, rank);
      RoundsAreJobs(low, high, id, available, rank, Head(high.log, id, None, rank).value.0, starts);
      LowerReachesHigher(low, high, id, available, rank, |starts|);
    }
  }

  // ---------- one history ----------

  /** The log holds exactly the first `n` versions of the history of `top`, one at each height. */
  ghost predicate Holds(log: LogState, id: Uuid, top: Link, n: nat) {
    Consistent(log) && HasPrefix(log, id, top, n)
  }

  ghost predicate HasPrefix(log: LogState, id: Uuid, top: Link, n: nat) {
    && n <= |Chain(top)|
    && (Exists(log, id) <==> n > 0)
    && forall h: nat :: Heads(log, id, h) == if h < n then [Chain(top)[h]] else []
  }

  /** A history both peers can follow: heights count up, every version is properly authored, lists both peers, and has
      the authors of all versions among its owners. */
  ghost predicate SharedHistory(top: Link, available: set<Hash>, a: PublicKey, b: PublicKey) {
    && Supplied(available, top) && HeightsCount(top)
    && (forall l :: l in Chain(top) ==>
          ProperlyAuthored(l) && a in l.hash.blob.manifest.shares && b in l.hash.blob.manifest.shares)
    && (forall l, m :: l in Chain(top) && m in Chain(top) ==> AuthorListed(l, m))
  }

  /** Then every version of it is a good target. */
  lemma EveryVersionIsGood(top: Link, available: set<Hash>, a: PublicKey, b: PublicKey, l: Link)
    requires SharedHistory(top, available, a, b) && l in Chain(top)
    ensures GoodTarget(l, a) && GoodTarget(l, b) && FixedShares(l)
  {
    forall x | x in Chain(l) ensures x in Chain(top) {
      InChainTransitive(x, l, top);
    }
  }

  lemma HoldsLevel(log: LogState, id: Uuid, top: Link, n: nat, rank: Link -> nat)
    requires Holds(log, id, top, n)
    ensures Level(log, id, rank) == n
    ensures n > 0 ==> Head(log, id, None, rank) == Some((Chain(top)[n - 1], n - 1))
    ensures n == 0 ==> Head(log, id, None, rank) == None
  {
    if Height(log, id).Some? {
      var m := Height(log, id).value;
      assert Heads(log, id, m) != [] && Heads(log, id, m + 1) == [];
    } else {
      assert Heads(log, id, 0) == [];
    }
  }

  lemma HoldsLogged(log: LogState, id: Uuid, top: Link, n: nat, l: Link)
    requires Holds(log, id, top, n)
    ensures Logged(log, id, l) <==> l in Chain(top)[..n]
  {
    if Logged(log, id, l) {
      var h := Has(log, id, l)[0];
      assert h in Has(log, id, l) && l in Heads(log, id, h);
      assert l == Chain(top)[..n][h];
    }
    if l in Chain(top)[..n] {
      var i: nat :| i < n && Chain(top)[..n][i] == l;
      assert l in Heads(log, id, i) && i in Has(log, id, l);
    }
  }

  lemma {:induction false} ChainElement(top: Link, i: nat)
    requires i < |Chain(top)|
    ensures Chain(Chain(top)[i]) == Chain(top)[..i + 1]
    ensures if i == 0 then Previous(Chain(top)[i]).None? else Previous(Chain(top)[i]) == Some(Chain(top)[i - 1])
    decreases top
  {
    if i < |Chain(top)| - 1 {
      ChainElement(Previous(top).value, i);
    } else {
      assert Chain(top)[i] == top && Chain(top)[..i + 1] == Chain(top);
    }
  }

  /** Links of a history are at one place only. */
  lemma ChainDistinct(top: Link, i: nat, j: nat)
    requires i < |Chain(top)| && j < |Chain(top)| && Chain(top)[i] == Chain(top)[j]
    ensures i == j
  {
    ChainElement(top, i);
    ChainElement(top, j);
    assert |Chain(top)[..i + 1]| == i + 1 && |Chain(top)[..j + 1]| == j + 1;
  }

  lemma HoldsGrounded(log: LogState, id: Uuid, top: Link, n: nat)
    requires Holds(log, id, top, n) && HeightsCount(top)
    ensures Grounded(log, id)
  {
    forall h: nat, l | l in Heads(log, id, h) ensures Seated(log, id, h, l) {
      ChainElement(top, h);
      assert l == Chain(top)[h] && l in Chain(top);
    }
  }

  /** A version above the first `n` is not logged, the last of the first `n` is. */
  lemma HeldExactly(log: LogState, id: Uuid, top: Link, n: nat)
    requires Holds(log, id, top, n)
    ensures forall m :: n <= m < |Chain(top)| ==> !Logged(log, id, Chain(top)[m])
    ensures n > 0 ==> Logged(log, id, Chain(top)[n - 1])
  {
    forall m | n <= m < |Chain(top)| ensures !Logged(log, id, Chain(top)[m]) {
      HoldsLogged(log, id, top, n, Chain(top)[m]);
      forall i | 0 <= i < n ensures Chain(top)[..n][i] != Chain(top)[m] {
        if Chain(top)[i] == Chain(top)[m] {
          ChainDistinct(top, i, m);
        }
      }
    }
    if n > 0 {
      HoldsLogged(log, id, top, n, Chain(top)[n - 1]);
      assert Chain(top)[..n][n - 1] == Chain(top)[n - 1];
    }
  }

  /** Then what is missing from the history up to `m` starts at the first version that is not held. */
  lemma {:induction false} HoldsSegment(log: LogState, id: Uuid, top: Link, n: nat, m: nat)
    requires forall i :: n <= i < |Chain(top)| ==> !Logged(log, id, Chain(top)[i])
    requires n <= m < |Chain(top)| && (n > 0 ==> Logged(log, id, Chain(top)[n - 1]))
    ensures Segment(log, id, Chain(top)[m]) == Chain(top)[n..m + 1]
    ensures Newest(log, id, Chain(top)[m]) == if n == 0 then None else Some(Chain(top)[n - 1])
    decreases m
  {
    var chain := Chain(top);
    ChainElement(top, m);
    if m > n {
      HoldsSegment(log, id, top, n, m - 1);
      OneLonger(chain, n, m);
    } else {
      assert chain[n..n + 1] == [chain[n]];
    }
  }

  lemma OneLonger(s: seq<Link>, n: nat, m: nat)
    requires n <= m < |s|
    ensures s[n..m] + [s[m]] == s[n..m + 1]
  {}

  lemma CountedPart(top: Link, l: Link)
    requires HeightsCount(top) && l in Chain(top)
    ensures HeightsCount(l)
  {
    forall x | x in Chain(l) ensures x in Chain(top) {
      InChainTransitive(x, l, top);
    }
  }

  /** A job for a target appends the given version if that is the oldest missing one, or leaves the log as it is. */
  lemma JobTakesFirst(p: Peer, id: Uuid, available: set<Hash>, target: Link, next: Link)
    requires Proper(p.log, id) && HeightsCount(target)
    requires Segment(p.log, id, target) != [] && Segment(p.log, id, target)[0] == next
    ensures var after := Execute(p.log, p.self, id, available, target).log;
            if Progresses(p.log, p.self, id, available, target)
            then next.hash.blob.ManifestBlob? && Validate(p.log, EntryOf(id, next)).Appended?
                 && after == Append(p.log, EntryOf(id, next))
            else after == p.log
  {
    JobProgressExactlyWhen(p.log, p.self, id, available, target);
  }

  lemma HeightOfElement(top: Link, n: nat)
    requires HeightsCount(top) && n < |Chain(top)|
    ensures Chain(top)[n].hash.blob.ManifestBlob? && Chain(top)[n].hash.blob.manifest.height == n
  {
    ChainElement(top, n);
    assert Chain(top)[n] in Chain(top);
  }

  /** A job for a version further up moves the peer up by one, if it progresses, and otherwise leaves it where it is. */
  lemma JobMovesUp(p: Peer, id: Uuid, available: set<Hash>, top: Link, n: nat, m: nat)
    requires Holds(p.log, id, top, n) && n <= m < |Chain(top)| && HeightsCount(top)
    ensures var after := Synced(p, id, available, Some(Chain(top)[m])).log;
            if Progresses(p.log, p.self, id, available, Chain(top)[m]) then Holds(after, id, top, n + 1)
            else after == p.log
  {
    JobAtGap(p, id, available, top, n, m, Chain(top)[m], Chain(top)[n]);
    if Progresses(p.log, p.self, id, available, Chain(top)[m]) {
      NextHeld(p.log, id, top, n);
    }
  }

  lemma NextHeld(log: LogState, id: Uuid, top: Link, n: nat)
    requires Holds(log, id, top, n) && n < |Chain(top)| && HeightsCount(top)
    requires Chain(top)[n].hash.blob.ManifestBlob? && Validate(log, EntryOf(id, Chain(top)[n])).Appended?
    ensures Holds(Append(log, EntryOf(id, Chain(top)[n])), id, top, n + 1)
  {
    HeightOfElement(top, n);
    OneMoreHeld(log, id, top, n);
  }

  lemma JobAtGap(p: Peer, id: Uuid, available: set<Hash>, top: Link, n: nat, m: nat, target: Link, next: Link)
    requires Holds(p.log, id, top, n) && n <= m < |Chain(top)| && HeightsCount(top)
    requires target == Chain(top)[m] && next == Chain(top)[n]
    ensures var after := Execute(p.log, p.self, id, available, target).log;
            if Progresses(p.log, p.self, id, available, target)
            then next.hash.blob.ManifestBlob? && Validate(p.log, EntryOf(id, next)).Appended?
                 && after == Append(p.log, EntryOf(id, next))
            else after == p.log
  {
    HoldsGrounded(p.log, id, top, n);
    GapStarts(p.log, id, top, n, m, target, next);
    CountedPart(top, target);
    JobTakesFirst(p, id, available, target, next);
  }

  lemma GapStarts(log: LogState, id: Uuid, top: Link, n: nat, m: nat, target: Link, next: Link)
    requires Holds(log, id, top, n) && n <= m < |Chain(top)| && target == Chain(top)[m] && next == Chain(top)[n]
    ensures Segment(log, id, target) != [] && Segment(log, id, target)[0] == next
  {
    GapSegment(log, id, top, n, m + 1);
  }

  lemma SuppliedPart(available: set<Hash>, top: Link, l: Link)
    requires Supplied(available, top) && l in Chain(top)
    ensures Supplied(available, l)
  {
    ChainIsPrefix(top, l);
  }

  lemma OneMoreHeld(log: LogState, id: Uuid, top: Link, n: nat)
    requires Holds(log, id, top, n) && n < |Chain(top)|
    requires var next := Chain(top)[n];
             && next.hash.blob.ManifestBlob? && next.hash.blob.manifest.height == n
             && Validate(log, EntryOf(id, next)).Appended?
    ensures Holds(Append(log, EntryOf(id, Chain(top)[n])), id, top, n + 1)
  {
    AppendKeepsConsistent(log, EntryOf(id, Chain(top)[n]));
    PrefixGrows(log, id, top, n, EntryOf(id, Chain(top)[n]));
  }

  lemma PrefixGrows(log: LogState, id: Uuid, top: Link, n: nat, e: Entry)
    requires HasPrefix(log, id, top, n) && n < |Chain(top)| && Validate(log, e).Appended?
    requires e.id == id && e.height == n && e.current == Chain(top)[n]
    ensures HasPrefix(Append(log, e), id, top, n + 1)
  {
    AppendHeads(log, e);
    assert Heads(log, id, n) + [e.current] == [e.current];
  }

  /** Two peers on one history, the special case without forks: after as many rounds as the gap between them, and not
      before, both report the same head, the higher of the two they had. */
  lemma TwoPeersConverge(a: Peer, b: Peer, id: Uuid, available: set<Hash>, rank: Link -> nat, top: Link, na: nat,
                         nb: nat, starts: seq<bool>)
    requires Holds(a.log, id, top, na) && Holds(b.log, id, top, nb) && (na > 0 || nb > 0)
    requires SharedHistory(top, available, a.self, b.self)
    ensures var r, gap := Rounds(a, b, id, available, rank, starts), if na < nb then nb - na else na - nb;
            && (Head(r.0.log, id, None, rank) == Head(r.1.log, id, None, rank) <==> |starts| >= gap)
            && (|starts| >= gap ==> Head(r.0.log, id, None, rank) == Head(Higher(a, b, id, rank).log, id, None, rank))
  {
    Standing(a, id, available, top, na, rank, a.self, b.self);
    Standing(b, id, available, top, nb, rank, a.self, b.self);
    if na < nb {
      GapIsMissing(a, id, available, top, na, nb, a.self, b.self);
      GapDecides(a, b, id, available, rank, starts, nb - na);
    } else if nb < na {
      GapIsMissing(b, id, available, top, nb, na, a.self, b.self);
      GapDecides(a, b, id, available, rank, starts, na - nb);
    } else {
      LevelPeersStay(a, b, id, available, rank, starts);
    }
  }

  /** A lower peer that misses `gap` versions and can catch up does so after as many rounds. */
  lemma GapDecides(a: Peer, b: Peer, id: Uuid, available: set<Hash>, rank: Link -> nat, starts: seq<bool>, gap: nat)
    requires Proper(a.log, id) && Proper(b.log, id) && Level(a.log, id, rank) != Level(b.log, id, rank)
    requires var low, head := Lower(a, b, id, rank), Head(Higher(a, b, id, rank).log, id, None, rank);
             && head.Some? && CanFollowTo(low, id, available, head.value.0)
             && Missing(low.log, id, head.value.0) == gap
    ensures var r, head := Rounds(a, b, id, available, rank, starts), Head(Higher(a, b, id, rank).log, id, None, rank);
            && (Head(r.0.log, id, None, rank) == Head(r.1.log, id, None, rank) <==> |starts| >= gap)
            && (|starts| >= gap ==> Head(r.0.log, id, None, rank) == head)
  {
    PeersConvergeExactlyWhen(a, b, id, available, rank, starts);
  }

  lemma Standing(p: Peer, id: Uuid, available: set<Hash>, top: Link, n: nat, rank: Link -> nat, a: PublicKey,
                 b: PublicKey)
    requires Holds(p.log, id, top, n) && SharedHistory(top, available, a, b)
    ensures Proper(p.log, id) && Level(p.log, id, rank) == n && n <= |Chain(top)|
    ensures Head(p.log, id, None, rank) == if n == 0 then None else Some((Chain(top)[n - 1], n - 1))
  {
    HoldsLevel(p.log, id, top, n, rank);
    HoldsGrounded(p.log, id, top, n);
  }

  /** The gap is what the lower peer misses, and it can catch up. */
  lemma GapIsMissing(low: Peer, id: Uuid, available: set<Hash>, top: Link, n: nat, m: nat, a: PublicKey, b: PublicKey)
    requires Holds(low.log, id, top, n) && n < m <= |Chain(top)|
    requires SharedHistory(top, available, a, b) && (low.self == a || low.self == b)
    ensures var target := Chain(top)[m - 1];
            CanFollowTo(low, id, available, target) && Missing(low.log, id, target) == m - n
  {
    MissesTheGap(low.log, id, top, n, m);
    EveryVersionIsGood(top, available, a, b, Chain(top)[m - 1]);
    SuppliedPart(available, top, Chain(top)[m - 1]);
    FixedSharesKnown(low.log, id, Chain(top)[m - 1]);
    GoodIsPassable(low.log, low.self, id, available, Chain(top)[m - 1]);
  }

  lemma GapSegment(log: LogState, id: Uuid, top: Link, n: nat, m: nat)
    requires Holds(log, id, top, n) && n < m <= |Chain(top)|
    ensures Segment(log, id, Chain(top)[m - 1]) == Chain(top)[n..m]
    ensures Newest(log, id, Chain(top)[m - 1]) == if n == 0 then None else Some(Chain(top)[n - 1])
  {
    HeldExactly(log, id, top, n);
    HoldsSegment(log, id, top, n, m - 1);
  }

  lemma GapIsShared(log: LogState, id: Uuid, top: Link, n: nat, m: nat)
    requires Holds(log, id, top, n) && n < m <= |Chain(top)|
    ensures SharesHistory(log, id, Chain(top)[m - 1])
  {
    GapSegment(log, id, top, n, m);
  }

  lemma MissesTheGap(log: LogState, id: Uuid, top: Link, n: nat, m: nat)
    requires Holds(log, id, top, n) && n < m <= |Chain(top)| && HeightsCount(top)
    ensures SharesHistory(log, id, Chain(top)[m - 1]) && Missing(log, id, Chain(top)[m - 1]) == m - n
  {
    GapIsShared(log, id, top, n, m);
    GapSegment(log, id, top, n, m);
    HoldsGrounded(log, id, top, n);
    MissesSegment(log, id, Chain(top)[m - 1], Chain(top)[n..m]);
  }

  lemma MissesSegment(log: LogState, id: Uuid, target: Link, s: seq<Link>)
    requires Consistent(log) && Grounded(log, id) && Segment(log, id, target) == s
    ensures Missing(log, id, target) == |s|
  {
    MissingIsSegment(log, id, target);
  }
}
