/** Provenance over every run of sync jobs, and catching up one version at a time. */
module SyncRuns {
  import opened Content
  import opened BucketLog
  import opened Chains
  import opened Sync
  import SaveLoad

  // ---------- jobs in sequence ----------

  /** A job for one bucket: who runs it, what can be fetched, and the advertised version. */
  datatype Job = Job(self: PublicKey, id: Uuid, available: set<Hash>, target: Link)

  function RunJobs(log: LogState, jobs: seq<Job>): LogState {
    if jobs == [] then log else
    var j := jobs[|jobs| - 1];
    Execute(RunJobs(log, jobs[..|jobs| - 1]), j.self, j.id, j.available, j.target).log
  }

  // ---------- provenance ----------

  /** A signed version is signed by its author, an owner in the shares of the version it names as its predecessor, or
      in its own shares if it is a genesis. */
  ghost predicate ProperlyAuthored(link: Link) {
    link.hash.blob.ManifestBlob? &&
    var m := link.hash.blob.manifest;
    m.author.Some? && m.signature.Some? ==>
      && SaveLoad.VerifySignature(m)
      && (m.previous.Some? ==> m.previous.value.hash.blob.ManifestBlob?)
      && var shares := if m.previous.Some? then m.previous.value.hash.blob.manifest.shares else m.shares;
      && m.author.value in shares && shares[m.author.value].role.Owner?
  }

  /** A job appends nothing, or one properly authored version that directly follows the newest logged version of the
      target's history. */
  lemma JobAppendsOne(log: LogState, self: PublicKey, id: Uuid, available: set<Hash>, target: Link)
    requires NothingUnknown(log, id)
    ensures var chosen, s := Chosen(log, self, id, available, target), Segment(log, id, target);
            chosen.Ok? && chosen.value.Some? ==>
              && s != [] && chosen.value.value == s[0]
              && ProperlyAuthored(s[0]) && Previous(s[0]) == Newest(log, id, target)
  {
    var chosen := Chosen(log, self, id, available, target);
    if chosen.Ok? && chosen.value.Some? {
      CandidatesAreSegment(log, id, available, target);
      SegmentIsContiguous(log, id, target);
      NewestIsFetched(log, id, available, target);
      CheckedIsAuthored(Segment(log, id, target), Newest(log, id, target));
    }
  }

  /** The first version of a checked list is properly authored if the list was checked against its predecessor. */
  lemma CheckedIsAuthored(links: seq<Link>, newest: Option<Link>)
    requires links != [] && forall l :: l in links ==> l.hash.blob.ManifestBlob?
    requires Previous(links[0]) == newest && (newest.Some? ==> newest.value.hash.blob.ManifestBlob?)
    requires CheckAuthors(links, if newest.None? then None else ManifestOf(newest.value)).Ok?
    ensures ProperlyAuthored(links[0])
  {
    assert links[0] in links;
  }

  lemma NewestIsFetched(log: LogState, id: Uuid, available: set<Hash>, target: Link)
    requires NothingUnknown(log, id) && Candidates(log, id, available, target).Ok?
    requires Candidates(log, id, available, target).value.Some?
    ensures Newest(log, id, target).Some? ==> Newest(log, id, target).value.hash.blob.ManifestBlob?
  {
    CandidatesAreSegment(log, id, available, target);
    if Exists(log, id) {
      AncestorIsFetched(log, id, available, target);
    }
  }

  lemma {:induction false} AncestorIsFetched(log: LogState, id: Uuid, available: set<Hash>, link: Link)
    requires FindAncestor(log, id, available, link).Ok? && FindAncestor(log, id, available, link).value.Some?
    ensures FindAncestor(log, id, available, link).value.value.hash.blob.ManifestBlob?
    decreases link
  {
    if !Logged(log, id, link) {
      AncestorIsFetched(log, id, available, Previous(link).value);
    }
  }

  /** A log whose index matches its entries, and which knows every bucket it has entries for. */
  ghost predicate Consistent(log: LogState) {
    Valid(log) && forall id, h :: Heads(log, id, h) != [] ==> Exists(log, id)
  }

  lemma ConsistentKnows(log: LogState, id: Uuid)
    requires Consistent(log)
    ensures NothingUnknown(log, id)
  {
    forall l | Logged(log, id, l) ensures Exists(log, id) {
      assert Has(log, id, l)[0] in Has(log, id, l);
    }
  }

  lemma AppendKeepsConsistent(log: LogState, e: Entry)
    requires Consistent(log)
    ensures Consistent(Append(log, e))
  {
    AppendKeepsValid(log, e);
    if Validate(log, e).Appended? {
      AppendHeads(log, e);
    } else {
      RejectedAppendIsSilent(log, e);
    }
  }

  lemma JobKeepsConsistent(log: LogState, j: Job)
    requires Consistent(log)
    ensures Consistent(Execute(log, j.self, j.id, j.available, j.target).log)
  {
    var chosen := Chosen(log, j.self, j.id, j.available, j.target);
    if chosen.Ok? && chosen.value.Some? {
      AppendKeepsConsistent(log, EntryOf(j.id, chosen.value.value));
    }
  }

  lemma JobAddsOnlyAuthored(log: LogState, j: Job, id: Uuid, h: nat, l: Link)
    requires Consistent(log)
    requires l in Heads(Execute(log, j.self, j.id, j.available, j.target).log, id, h) && l !in Heads(log, id, h)
    ensures ProperlyAuthored(l)
  {
    ConsistentKnows(log, j.id);
    JobAppendsOne(log, j.self, j.id, j.available, j.target);
    var e := EntryOf(j.id, Chosen(log, j.self, j.id, j.available, j.target).value.value);
    if Validate(log, e).Appended? {
      HeadsOneMore(log, e, id, h, l);
    } else {
      RejectedAppendIsSilent(log, e);
    }
  }

  /** Over any sequence of jobs, for any buckets, targets and sources: every version in the log that was not there at
      the start is properly authored. */
  lemma {:induction false} SyncedVersionsAreAuthored(log: LogState, jobs: seq<Job>, id: Uuid, h: nat, l: Link)
    requires Consistent(log)
    ensures Consistent(RunJobs(log, jobs))
    ensures l in Heads(RunJobs(log, jobs), id, h) && l !in Heads(log, id, h) ==> ProperlyAuthored(l)
  {
    if jobs != [] {
      var front, last := jobs[..|jobs| - 1], jobs[|jobs| - 1];
      SyncedVersionsAreAuthored(log, front, id, h, l);
      JobKeepsConsistent(RunJobs(log, front), last);
      if l in Heads(RunJobs(log, jobs), id, h) && l !in Heads(RunJobs(log, front), id, h) {
        JobAddsOnlyAuthored(RunJobs(log, front), last, id, h, l);
      }
    }
  }

  // ---------- logs that follow the manifests ----------

  /** A version at the height its manifest says, on top of its predecessor. */
  ghost predicate Seated(log: LogState, id: Uuid, h: nat, l: Link) {
    && l.hash.blob.ManifestBlob? && l.hash.blob.manifest.height == h
    && match Previous(l)
       case None => h == 0
       case Some(p) => h > 0 && p in Heads(log, id, h - 1)
  }

  /** Every logged version is seated. */
  ghost predicate Grounded(log: LogState, id: Uuid) {
    forall h: nat, l :: l in Heads(log, id, h) ==> Seated(log, id, h, l)
  }

  /** A log whose entries follow their manifests; it may hold any forks. */
  ghost predicate Proper(log: LogState, id: Uuid) {
    Consistent(log) && Grounded(log, id)
  }

  lemma GroundedAppend(log: LogState, id: Uuid, link: Link)
    requires Grounded(log, id) && link.hash.blob.ManifestBlob?
    ensures Grounded(Append(log, EntryOf(id, link)), id)
  {
    var e := EntryOf(id, link);
    var after := Append(log, e);
    forall h: nat, l | l in Heads(after, id, h) ensures Seated(after, id, h, l) {
      if Validate(log, e).Appended? {
        SeatedAfterAppend(log, e, h, l);
      } else {
        RejectedAppendIsSilent(log, e);
      }
    }
  }

  lemma SeatedAfterAppend(log: LogState, e: Entry, h: nat, l: Link)
    requires Grounded(log, e.id) && e.current.hash.blob.ManifestBlob? && e == EntryOf(e.id, e.current)
    requires Validate(log, e).Appended? && l in Heads(Append(log, e), e.id, h)
    ensures Seated(Append(log, e), e.id, h, l)
  {
    HeadsOneMore(log, e, e.id, h, l);
    if h > 0 && Previous(l).Some? {
      HeadsOneMore(log, e, e.id, h - 1, Previous(l).value);
    }
  }

  /** Every job keeps the log grounded. */
  lemma JobKeepsGrounded(log: LogState, j: Job)
    requires Grounded(log, j.id)
    ensures Grounded(Execute(log, j.self, j.id, j.available, j.target).log, j.id)
  {
    var chosen := Chosen(log, j.self, j.id, j.available, j.target);
    if chosen.Ok? && chosen.value.Some? {
      GroundedAppend(log, j.id, chosen.value.value);
    }
  }

  lemma LoggedAtOwnHeight(log: LogState, id: Uuid, l: Link)
    requires Consistent(log) && Grounded(log, id) && Logged(log, id, l)
    ensures l.hash.blob.ManifestBlob? && l in Heads(log, id, l.hash.blob.manifest.height)
    ensures Previous(l).Some? ==> Logged(log, id, Previous(l).value)
  {
    var h := Has(log, id, l)[0];
    assert h in Has(log, id, l);
    assert l in Heads(log, id, h) && Seated(log, id, h, l);
    if Previous(l).Some? {
      assert h - 1 in Has(log, id, Previous(l).value);
    }
  }

  // ---------- progress ----------

  /** How many versions of a history are not logged. */
  function Missing(log: LogState, id: Uuid, link: Link): nat
    decreases link
  {
    (if Logged(log, id, link) then 0 else 1)
    + if Previous(link).None? then 0 else Missing(log, id, Previous(link).value)
  }

  lemma {:induction false} LoggedMissesNothing(log: LogState, id: Uuid, link: Link)
    requires Consistent(log) && Grounded(log, id) && Logged(log, id, link)
    ensures Missing(log, id, link) == 0
    decreases link
  {
    LoggedAtOwnHeight(log, id, link);
    if Previous(link).Some? {
      LoggedMissesNothing(log, id, Previous(link).value);
    }
  }

  /** In a grounded log the versions missing from a history are the segment above the newest logged one. */
  lemma {:induction false} MissingIsSegment(log: LogState, id: Uuid, link: Link)
    requires Consistent(log) && Grounded(log, id)
    ensures Missing(log, id, link) == |Segment(log, id, link)|
    decreases link
  {
    if Logged(log, id, link) {
      LoggedMissesNothing(log, id, link);
    } else if Previous(link).Some? {
      MissingIsSegment(log, id, Previous(link).value);
    }
  }

  /** The author of the target, if it is signed, is an owner in the shares of a version. */
  predicate AuthorListed(target: Link, l: Link) {
    && target.hash.blob.ManifestBlob? && l.hash.blob.ManifestBlob?
    && var m, shares := target.hash.blob.manifest, l.hash.blob.manifest.shares;
    m.author.Some? && m.signature.Some? ==> m.author.value in shares && shares[m.author.value].role.Owner?
  }

  /** The version whose shares the latest version is checked against: the newest logged one of its history, or itself in
      a new bucket. */
  function CheckedAgainst(log: LogState, id: Uuid, target: Link): Link {
    if Newest(log, id, target).Some? then Newest(log, id, target).value else target
  }

  predicate AuthorKnown(log: LogState, id: Uuid, target: Link) {
    AuthorListed(target, CheckedAgainst(log, id, target))
  }

  // ---------- what a job fetches and checks ----------

  predicate Fetchable(available: set<Hash>, l: Link) {
    l.hash in available && l.hash.blob.ManifestBlob?
  }

  /** The missing versions and the newest logged one can be fetched. */
  ghost predicate CanFetch(log: LogState, id: Uuid, available: set<Hash>, target: Link) {
    && (forall l :: l in Segment(log, id, target) ==> Fetchable(available, l))
    && (Newest(log, id, target).Some? ==> Fetchable(available, Newest(log, id, target).value))
  }

  lemma CanFetchStep(log: LogState, id: Uuid, available: set<Hash>, link: Link)
    ensures CanFetch(log, id, available, link) <==>
            && Fetchable(available, link)
            && (!Logged(log, id, link) && Previous(link).Some? ==> CanFetch(log, id, available, Previous(link).value))
  {
    if !Logged(log, id, link) && Previous(link).Some? {
      var p := Previous(link).value;
      assert forall l :: l in Segment(log, id, link) <==> l in Segment(log, id, p) || l == link;
    }
  }

  /** The walk to the newest logged version succeeds exactly when those can be fetched. */
  lemma {:induction false} AncestorExactlyWhen(log: LogState, id: Uuid, available: set<Hash>, link: Link)
    ensures FindAncestor(log, id, available, link).Ok? <==> CanFetch(log, id, available, link)
    ensures FindAncestor(log, id, available, link).Err? ==>
              FindAncestor(log, id, available, link).error == DownloadFailed
    decreases link
  {
    CanFetchStep(log, id, available, link);
    if !Logged(log, id, link) && Previous(link).Some? {
      AncestorExactlyWhen(log, id, available, Previous(link).value);
    }
  }

  /** And so does the download. */
  lemma {:induction false} DownloadExactlyWhen(log: LogState, id: Uuid, available: set<Hash>, link: Link,
                                               stop: Option<Link>)
    requires stop == Newest(log, id, link)
    ensures DownloadChain(available, link, stop).Ok? <==> CanFetch(log, id, available, link)
    ensures DownloadChain(available, link, stop).Err? ==> DownloadChain(available, link, stop).error == DownloadFailed
    decreases link
  {
    CanFetchStep(log, id, available, link);
    NewestIsLogged(log, id, link);
    if !Logged(log, id, link) && Previous(link).Some? {
      DownloadExactlyWhen(log, id, available, Previous(link).value, stop);
    }
  }

  /** The check of a list with one more version. */
  function Then(links: Result<()>, last: Result<Provenance>): Result<()> {
    if links.Err? then links else if last.Err? then Err(last.error) else Ok(())
  }

  lemma {:induction false} CheckOneMore(links: seq<Link>, l: Link, base: Option<Manifest>)
    requires l.hash.blob.ManifestBlob? && forall x :: x in links ==> x.hash.blob.ManifestBlob?
    ensures CheckAuthors(links + [l], base)
            == Then(CheckAuthors(links, base),
                    VerifyAuthor(l.hash.blob.manifest, if links == [] then base else ManifestOf(links[|links| - 1])))
  {
    if links != [] {
      assert (links + [l])[1..] == links[1..] + [l];
      CheckOneMore(links[1..], l, ManifestOf(links[0]));
    } else {
      assert ([] + [l])[1..] == [];
    }
  }

  /** The manifest the versions of a segment are checked against. */
  function Base(log: LogState, id: Uuid, link: Link): Option<Manifest> {
    var newest := Newest(log, id, link);
    if newest.None? then None else ManifestOf(newest.value)
  }

  /** What is wrong with a version: its signature, or its author, who is not in the shares of the version before it, or
      is there and is no owner. A genesis is measured by its own shares. */
  function FaultOf(l: Link): Option<SyncError>
    requires l.hash.blob.ManifestBlob? && (Previous(l).Some? ==> Previous(l).value.hash.blob.ManifestBlob?)
  {
    var m := l.hash.blob.manifest;
    var shares := if Previous(l).Some? then Previous(l).value.hash.blob.manifest.shares else m.shares;
    if m.author.None? || m.signature.None? then None
    else if !(m.signature.value.signer == m.author.value && m.signature.value.over == m.(signature := None)) then
      Some(InvalidSignature)
    else if m.author.value !in shares then Some(AuthorNotInShares)
    else if shares[m.author.value].role == Mirror then Some(AuthorNotWriter)
    else None
  }

  /** A version passes the check against its predecessor exactly when it is properly authored, and fails with what is
      wrong with it. */
  lemma VerifiesExactlyWhen(l: Link)
    requires l.hash.blob.ManifestBlob? && (Previous(l).Some? ==> Previous(l).value.hash.blob.ManifestBlob?)
    ensures var previous := if Previous(l).None? then None else ManifestOf(Previous(l).value);
            var r := VerifyAuthor(l.hash.blob.manifest, previous);
            && (r.Ok? <==> FaultOf(l).None?) && (r.Err? ==> FaultOf(l) == Some(r.error))
            && (ProperlyAuthored(l) <==> FaultOf(l).None?)
  {}

  /** The missing versions are properly authored. */
  ghost predicate Authored(log: LogState, id: Uuid, target: Link) {
    forall l :: l in Segment(log, id, target) ==> ProperlyAuthored(l)
  }

  lemma AuthoredStep(log: LogState, id: Uuid, link: Link)
    requires !Logged(log, id, link)
    ensures Authored(log, id, link) <==>
            ProperlyAuthored(link) && (Previous(link).Some? ==> Authored(log, id, Previous(link).value))
  {
    if Previous(link).Some? {
      var p := Previous(link).value;
      assert forall l :: l in Segment(log, id, link) <==> l in Segment(log, id, p) || l == link;
    }
  }

  /** What is wrong with the oldest missing version that has a fault. */
  function FirstFault(log: LogState, id: Uuid, available: set<Hash>, link: Link): Option<SyncError>
    requires CanFetch(log, id, available, link)
    decreases link
  {
    CanFetchStep(log, id, available, link);
    if Logged(log, id, link) then None
    else if Previous(link).None? then FaultOf(link)
    else
      var older := FirstFault(log, id, available, Previous(link).value);
      CanFetchStep(log, id, available, Previous(link).value);
      if older.Some? then older else FaultOf(link)
  }

  function AsResult(fault: Option<SyncError>): Result<()> {
    if fault.None? then Ok(()) else Err(fault.value)
  }

  /** The check of the downloaded list passes exactly when the missing versions are properly authored, and fails with
      what is wrong with the oldest one that is not. */
  lemma {:induction false} CheckExactlyWhen(log: LogState, id: Uuid, available: set<Hash>, link: Link)
    requires CanFetch(log, id, available, link)
    ensures CheckAuthors(Segment(log, id, link), Base(log, id, link)) == AsResult(FirstFault(log, id, available, link))
    ensures FirstFault(log, id, available, link).None? <==> Authored(log, id, link)
    decreases link
  {
    CanFetchStep(log, id, available, link);
    if !Logged(log, id, link) {
      AuthoredStep(log, id, link);
      if Previous(link).None? {
        CheckOneMore([], link, None);
        assert [] + [link] == [link];
        VerifiesExactlyWhen(link);
      } else {
        CanFetchStep(log, id, available, Previous(link).value);
        CheckLast(log, id, available, link);
        CheckExactlyWhen(log, id, available, Previous(link).value);
        VerifiesExactlyWhen(link);
      }
    }
  }

  lemma CheckLast(log: LogState, id: Uuid, available: set<Hash>, link: Link)
    requires CanFetch(log, id, available, link) && !Logged(log, id, link) && Previous(link).Some?
    requires CanFetch(log, id, available, Previous(link).value)
    ensures var p := Previous(link).value;
            CheckAuthors(Segment(log, id, link), Base(log, id, link))
            == Then(CheckAuthors(Segment(log, id, p), Base(log, id, p)),
                    VerifyAuthor(link.hash.blob.manifest, ManifestOf(p)))
  {
    var p := Previous(link).value;
    CheckOneMore(Segment(log, id, p), link, Base(log, id, p));
    LastOfSegment(log, id, p);
  }

  lemma LastOfSegment(log: LogState, id: Uuid, link: Link)
    ensures var s := Segment(log, id, link);
            if s == [] then Newest(log, id, link) == Some(link) else s[|s| - 1] == link
  {}

  /** The bucket is new here, or shares a version with the target. */
  ghost predicate SharesHistory(log: LogState, id: Uuid, target: Link) {
    !Exists(log, id) || Newest(log, id, target).Some?
  }

  /** What a job needs to come to its candidates. */
  ghost predicate Obtainable(log: LogState, id: Uuid, available: set<Hash>, target: Link) {
    SharesHistory(log, id, target) && CanFetch(log, id, available, target) && Authored(log, id, target)
  }

  /** A job comes to its candidates exactly then, and they are the missing versions; and why not otherwise. */
  lemma CandidatesExactlyWhen(log: LogState, id: Uuid, available: set<Hash>, target: Link)
    requires Consistent(log)
    ensures Candidates(log, id, available, target) ==
            if !CanFetch(log, id, available, target) then Err(DownloadFailed)
            else if !SharesHistory(log, id, target) then Ok(None)
            else if FirstFault(log, id, available, target).Some? then Err(FirstFault(log, id, available, target).value)
            else Ok(Some((Newest(log, id, target), Segment(log, id, target))))
    ensures CanFetch(log, id, available, target) ==>
              (FirstFault(log, id, available, target).None? <==> Authored(log, id, target))
  {
    var newest := Newest(log, id, target);
    ConsistentKnows(log, id);
    NewestIsLogged(log, id, target);
    AncestorExactlyWhen(log, id, available, target);
    if FindAncestor(log, id, available, target).Ok? {
      AncestorIsNewest(log, id, available, target);
    }
    DownloadExactlyWhen(log, id, available, target, newest);
    if CanFetch(log, id, available, target) {
      DownloadIsSegment(log, id, available, target, newest);
      CheckExactlyWhen(log, id, available, target);
    }
  }

  predicate ListedIn(target: Link, self: PublicKey) {
    target.hash.blob.ManifestBlob? && self in target.hash.blob.manifest.shares
  }

  /** What the newest logged version says against the author of the target, if the target is signed. */
  function AuthorFault(log: LogState, id: Uuid, target: Link): Option<SyncError>
    requires target.hash.blob.ManifestBlob? && CheckedAgainst(log, id, target).hash.blob.ManifestBlob?
  {
    var m, shares := target.hash.blob.manifest, CheckedAgainst(log, id, target).hash.blob.manifest.shares;
    if m.author.None? || m.signature.None? then None
    else if m.author.value !in shares then Some(AuthorNotInShares)
    else if shares[m.author.value].role == Mirror then Some(AuthorNotWriter)
    else None
  }

  /** The check of the latest version: it is left alone if it does not list the receiver, passes if its author is known
      to the newest logged one, and otherwise fails with what that one says. */
  lemma LatestPassesExactlyWhen(log: LogState, self: PublicKey, id: Uuid, available: set<Hash>, target: Link)
    requires ProperlyAuthored(target) && CanFetch(log, id, available, target)
    ensures CheckedAgainst(log, id, target).hash.blob.ManifestBlob?
    ensures var r := VerifyProvenance(self, target.hash.blob.manifest, Base(log, id, target));
            && (r.Ok? && !r.value.NotAuthorized? <==> ListedIn(target, self) && AuthorKnown(log, id, target))
            && (r.Err? <==> ListedIn(target, self) && !AuthorKnown(log, id, target))
            && (r.Err? ==> AuthorFault(log, id, target) == Some(r.error))
  {}

  /** Everything a job asks for apart from the standing of the author. */
  ghost predicate Passable(log: LogState, self: PublicKey, id: Uuid, available: set<Hash>, target: Link) {
    Obtainable(log, id, available, target) && ListedIn(target, self)
  }

  lemma UnloggedIsNowhere(log: LogState, id: Uuid, l: Link, h: nat)
    requires Consistent(log) && !Logged(log, id, l)
    ensures l !in Heads(log, id, h)
  {
    assert h !in Has(log, id, l);
  }

  /** The oldest missing version always fits on the log. */
  lemma OldestFits(log: LogState, id: Uuid, target: Link)
    requires Proper(log, id) && HeightsCount(target) && Segment(log, id, target) != []
    ensures var oldest := Segment(log, id, target)[0];
            oldest.hash.blob.ManifestBlob? && Validate(log, EntryOf(id, oldest)).Appended?
  {
    var oldest := Segment(log, id, target)[0];
    SegmentIsContiguous(log, id, target);
    assert oldest in Chain(target) && !Logged(log, id, oldest);
    NewestIsLogged(log, id, target);
    FitsOn(log, id, target, oldest);
  }

  /** A version sits on its predecessor in the log, or is a genesis. */
  ghost predicate Fits(log: LogState, e: Entry) {
    match e.previous
    case None => e.height == 0
    case Some(p) => e.height > 0 && p in Heads(log, e.id, e.height - 1)
  }

  lemma FitsIsAppended(log: LogState, e: Entry)
    requires Fits(log, e) && e.current !in Heads(log, e.id, e.height)
    ensures Validate(log, e).Appended?
  {}

  lemma FitsOneAbove(log: LogState, id: Uuid, p: Link, l: Link)
    requires l.hash.blob.ManifestBlob? && p.hash.blob.ManifestBlob? && Previous(l) == Some(p)
    requires l.hash.blob.manifest.height == p.hash.blob.manifest.height + 1
    requires p in Heads(log, id, p.hash.blob.manifest.height)
    ensures Fits(log, EntryOf(id, l))
  {}

  lemma NextFits(log: LogState, id: Uuid, target: Link, l: Link)
    requires Consistent(log) && Grounded(log, id) && HeightsCount(target) && l in Chain(target)
    requires l.hash.blob.ManifestBlob? && Previous(l).Some? && Logged(log, id, Previous(l).value)
    ensures Fits(log, EntryOf(id, l))
  {
    OneAbovePrevious(target, l);
    LoggedAtOwnHeight(log, id, Previous(l).value);
    FitsOneAbove(log, id, Previous(l).value, l);
  }

  lemma FitsOn(log: LogState, id: Uuid, target: Link, l: Link)
    requires Consistent(log) && Grounded(log, id) && HeightsCount(target) && l in Chain(target) && !Logged(log, id, l)
    requires Previous(l).Some? ==> Logged(log, id, Previous(l).value)
    ensures l.hash.blob.ManifestBlob? && Validate(log, EntryOf(id, l)).Appended?
  {
    InChainHeight(target, l);
    var e := EntryOf(id, l);
    UnloggedIsNowhere(log, id, l, e.height);
    if Previous(l).Some? {
      NextFits(log, id, target, l);
    }
    FitsIsAppended(log, e);
  }

  /** A version of a counted history is a manifest, at height 0 if it is the genesis. */
  lemma InChainHeight(target: Link, l: Link)
    requires HeightsCount(target) && l in Chain(target)
    ensures l.hash.blob.ManifestBlob? && (Previous(l).None? ==> l.hash.blob.manifest.height == 0)
  {
    assert Previous(l).None? ==> |Chain(l)| == 1;
  }

  lemma OneAbovePrevious(target: Link, l: Link)
    requires HeightsCount(target) && l in Chain(target) && Previous(l).Some?
    ensures Previous(l).value.hash.blob.ManifestBlob?
            && l.hash.blob.manifest.height == Previous(l).value.hash.blob.manifest.height + 1
  {
    var p := Previous(l).value;
    assert p in Chain(p) && p in Chain(l);
    InChainTransitive(p, l, target);
  }

  lemma LoggedAfterAppend(log: LogState, e: Entry, l: Link)
    requires Validate(log, e).Appended?
    ensures Logged(Append(log, e), e.id, l) <==> Logged(log, e.id, l) || l == e.current
  {
    AppendIndex(log, e);
  }

  /** Logging the oldest missing version leaves one version fewer missing, in every history that misses it. */
  lemma {:induction false} OneFewerMissing(log: LogState, e: Entry, link: Link)
    requires Validate(log, e).Appended? && !Logged(log, e.id, e.current)
    ensures Missing(Append(log, e), e.id, link)
            == Missing(log, e.id, link) - if e.current in Chain(link) then 1 else 0
    decreases link
  {
    LoggedAfterAppend(log, e, link);
    if Previous(link).Some? {
      OneFewerMissing(log, e, Previous(link).value);
      if link == e.current && e.current in Chain(Previous(link).value) {
        ChainIsPrefix(Previous(link).value, link);
      }
    }
  }

  /** What the job makes of its candidates. */
  lemma ChosenExactlyWhen(log: LogState, self: PublicKey, id: Uuid, available: set<Hash>, target: Link)
    requires Consistent(log) && Segment(log, id, target) != []
    ensures CanFetch(log, id, available, target) ==>
              && CheckedAgainst(log, id, target).hash.blob.ManifestBlob? && target.hash.blob.ManifestBlob?
              && (FirstFault(log, id, available, target).None? <==> Authored(log, id, target))
    ensures Chosen(log, self, id, available, target) ==
            if !CanFetch(log, id, available, target) then Err(DownloadFailed)
            else if !SharesHistory(log, id, target) then Ok(None)
            else if FirstFault(log, id, available, target).Some? then Err(FirstFault(log, id, available, target).value)
            else if !ListedIn(target, self) then Ok(None)
            else if AuthorKnown(log, id, target) then Ok(Some(Segment(log, id, target)[0]))
            else if AuthorFault(log, id, target).None? then Ok(None)
            else Err(AuthorFault(log, id, target).value)
    ensures CanFetch(log, id, available, target) ==>
              (AuthorKnown(log, id, target) <==> AuthorFault(log, id, target).None?)
  {
    var s := Segment(log, id, target);
    CandidatesExactlyWhen(log, id, available, target);
    CanFetchStep(log, id, available, target);
    LastOfSegment(log, id, target);
    assert target in s;
    if Obtainable(log, id, available, target) {
      LatestPassesExactlyWhen(log, self, id, available, target);
    }
  }

  /** Logging the oldest missing version leaves one fewer missing, and a shared history. */
  lemma OldestHelps(log: LogState, id: Uuid, target: Link)
    requires var s := Segment(log, id, target);
             s != [] && s[0].hash.blob.ManifestBlob? && Validate(log, EntryOf(id, s[0])).Appended?
    ensures var after := Append(log, EntryOf(id, Segment(log, id, target)[0]));
            Missing(after, id, target) == Missing(log, id, target) - 1 && SharesHistory(after, id, target)
  {
    var oldest := Segment(log, id, target)[0];
    SegmentIsContiguous(log, id, target);
    assert oldest in Segment(log, id, target) && oldest in Chain(target);
    OneFewerMissing(log, EntryOf(id, oldest), target);
    LoggedAfterAppend(log, EntryOf(id, oldest), oldest);
    LoggedIsShared(Append(log, EntryOf(id, oldest)), id, target, oldest);
  }

  /** A job has something to append and may append it. */
  ghost predicate Progresses(log: LogState, self: PublicKey, id: Uuid, available: set<Hash>, target: Link) {
    Missing(log, id, target) > 0 && Passable(log, self, id, available, target) && AuthorKnown(log, id, target)
  }

  /** One job for any target whose heights count up. It appends a version if and only if something is missing, history
      is shared, the missing versions and the newest logged one can be fetched, the missing ones are properly authored,
      the target lists the receiver, and the author of the target is an owner in the newest logged version. What it
      appends is the oldest missing version, the append is accepted, and one version fewer is missing. Otherwise the log
      is unchanged; and if only the standing of the author is in the way, the job fails. */
  lemma JobProgressExactlyWhen(log: LogState, self: PublicKey, id: Uuid, available: set<Hash>, target: Link)
    requires Proper(log, id) && HeightsCount(target)
    ensures var o, s := Execute(log, self, id, available, target), Segment(log, id, target);
            if Progresses(log, self, id, available, target) then
              && o.result.Ok? && s != [] && s[0].hash.blob.ManifestBlob?
              && Validate(log, EntryOf(id, s[0])).Appended? && o.log == Append(log, EntryOf(id, s[0]))
              && Missing(o.log, id, target) == Missing(log, id, target) - 1
              && SharesHistory(o.log, id, target)
            else
              && o.log == log
              && (Missing(log, id, target) > 0 && Passable(log, self, id, available, target) ==> o.result.Err?)
  {
    MissingIsSegment(log, id, target);
    if Missing(log, id, target) > 0 {
      OldestFits(log, id, target);
      ChosenExactlyWhen(log, self, id, available, target);
      OldestHelps(log, id, target);
    } else {
      LoggedWhenNothingMissing(log, id, target);
      JobAtTargetIsNoOp(log, self, id, available, target);
    }
  }

  /** The result of one job, whatever it does to the log. It fails if a missing version or the newest logged one cannot
      be fetched; succeeds without doing anything if no history is shared; fails with the fault of the oldest missing
      version that has one; succeeds if nothing is missing or the target does not list the receiver; and otherwise
      succeeds exactly if the newest logged version knows the author as an owner, and fails with what it says. */
  lemma JobResultExactlyWhen(log: LogState, self: PublicKey, id: Uuid, available: set<Hash>, target: Link)
    requires Proper(log, id) && HeightsCount(target)
    ensures CanFetch(log, id, available, target) ==>
              target.hash.blob.ManifestBlob? && CheckedAgainst(log, id, target).hash.blob.ManifestBlob?
    ensures Execute(log, self, id, available, target).result ==
            if !CanFetch(log, id, available, target) then Err(DownloadFailed)
            else if !SharesHistory(log, id, target) then Ok(())
            else if FirstFault(log, id, available, target).Some? then Err(FirstFault(log, id, available, target).value)
            else if Missing(log, id, target) == 0 || !ListedIn(target, self) then Ok(())
            else AsResult(AuthorFault(log, id, target))
  {
    MissingIsSegment(log, id, target);
    CanFetchStep(log, id, available, target);
    if Missing(log, id, target) > 0 {
      OldestFits(log, id, target);
      ChosenExactlyWhen(log, self, id, available, target);
    } else {
      LoggedWhenNothingMissing(log, id, target);
      JobAtTargetIsNoOp(log, self, id, available, target);
    }
  }

  /** So a job for a target of which something is missing succeeds if and only if what it needs can be fetched and, if
      history is shared, the missing versions are properly authored and the author is known wherever the receiver is
      listed. */
  lemma JobSucceedsExactlyWhen(log: LogState, self: PublicKey, id: Uuid, available: set<Hash>, target: Link)
    requires Proper(log, id) && HeightsCount(target) && Missing(log, id, target) > 0
    ensures Execute(log, self, id, available, target).result.Ok? <==>
            && CanFetch(log, id, available, target)
            && (SharesHistory(log, id, target) ==>
                  && Authored(log, id, target)
                  && (ListedIn(target, self) ==> AuthorKnown(log, id, target)))
  {
    JobResultExactlyWhen(log, self, id, available, target);
    MissingIsSegment(log, id, target);
    ChosenExactlyWhen(log, self, id, available, target);
  }

  lemma LoggedWhenNothingMissing(log: LogState, id: Uuid, target: Link)
    requires Consistent(log) && Grounded(log, id)
    ensures Logged(log, id, target) <==> Missing(log, id, target) == 0
  {
    if Logged(log, id, target) {
      LoggedMissesNothing(log, id, target);
    }
  }

  /** A job for a version that is logged changes nothing, and succeeds if the version can be fetched. */
  lemma JobAtTargetIsNoOp(log: LogState, self: PublicKey, id: Uuid, available: set<Hash>, target: Link)
    requires Consistent(log) && Logged(log, id, target)
    ensures var o := Execute(log, self, id, available, target);
            o.log == log && (o.result.Ok? <==> Fetchable(available, target))
  {
    ConsistentKnows(log, id);
    assert Exists(log, id);
  }

  lemma {:induction false} LoggedIsShared(log: LogState, id: Uuid, target: Link, l: Link)
    requires l in Chain(target) && Logged(log, id, l)
    ensures Newest(log, id, target).Some?
    decreases target
  {
    if l != target && !Logged(log, id, target) {
      LoggedIsShared(log, id, Previous(target).value, l);
    }
  }

  // ---------- many jobs ----------

  function Iterate<S>(s: S, step: S -> S, n: nat): S {
    if n == 0 then s else step(Iterate(s, step, n - 1))
  }

  /** A step that keeps states in order and counts down. */
  lemma {:induction false} CountsDown<S(!new)>(s: S, step: S -> S, ok: S -> bool, measure: S -> nat, n: nat)
    requires ok(s)
    requires forall x :: ok(x) ==> ok(step(x)) && measure(step(x)) == if measure(x) > 0 then measure(x) - 1 else 0
    ensures ok(Iterate(s, step, n))
    ensures measure(Iterate(s, step, n)) == if n < measure(s) then measure(s) - n else 0
  {
    if n > 0 {
      CountsDown(s, step, ok, measure, n - 1);
    }
  }

  /** How many of the missing versions can be appended: each job checks the latest version against the version that was
      appended before, and the first check that fails ends it. */
  function Reach(target: Link, base: Link, missing: seq<Link>): nat
    decreases missing
  {
    if missing == [] || !AuthorListed(target, base) then 0 else 1 + Reach(target, missing[0], missing[1..])
  }

  ghost function ReachOf(log: LogState, self: PublicKey, id: Uuid, available: set<Hash>, target: Link): nat {
    if !Passable(log, self, id, available, target) then 0
    else Reach(target, CheckedAgainst(log, id, target), Segment(log, id, target))
  }

  /** The author of the target is an owner in the newest logged version and in each missing version below the target. */
  ghost predicate AuthorKnownThroughout(log: LogState, id: Uuid, target: Link) {
    var s := Segment(log, id, target);
    s != [] ==> AuthorKnown(log, id, target) && forall l :: l in s[..|s| - 1] ==> AuthorListed(target, l)
  }

  /** All missing versions can be appended exactly when every check passes. */
  lemma {:induction false} ReachesAllWhen(target: Link, base: Link, missing: seq<Link>)
    ensures Reach(target, base, missing) <= |missing|
    ensures Reach(target, base, missing) == |missing| <==>
            (missing != [] ==> && AuthorListed(target, base)
                               && forall l :: l in missing[..|missing| - 1] ==> AuthorListed(target, l))
    decreases missing
  {
    if missing != [] {
      var first, rest := missing[0], missing[1..];
      ReachesAllWhen(target, first, rest);
      if rest != [] {
        assert missing[..|missing| - 1] == [first] + rest[..|rest| - 1];
      }
    }
  }

  /** Logging the oldest missing version leaves the others missing, on top of it. */
  lemma {:induction false} SegmentOneLess(log: LogState, e: Entry, link: Link)
    requires Validate(log, e).Appended?
    requires Segment(log, e.id, link) != [] && Segment(log, e.id, link)[0] == e.current
    ensures Segment(Append(log, e), e.id, link) == Segment(log, e.id, link)[1..]
    ensures Newest(Append(log, e), e.id, link) == Some(e.current)
    decreases link
  {
    LoggedAfterAppend(log, e, link);
    if Previous(link).Some? {
      var p := Previous(link).value;
      LoggedAfterAppend(log, e, p);
      if Segment(log, e.id, p) != [] {
        SegmentOneLess(log, e, p);
        OldestInChain(log, e.id, p);
        NotInOwnPast(link);
      }
    }
  }

  lemma OldestInChain(log: LogState, id: Uuid, link: Link)
    requires Segment(log, id, link) != []
    ensures Segment(log, id, link)[0] in Chain(link)
  {
    SegmentIsContiguous(log, id, link);
  }

  lemma NotInOwnPast(link: Link)
    requires Previous(link).Some?
    ensures link !in Chain(Previous(link).value)
  {
    if link in Chain(Previous(link).value) {
      ChainIsPrefix(Previous(link).value, link);
    }
  }

  /** What is left after the oldest missing version was logged can be appended as before. */
  lemma PassableAfter(log: LogState, self: PublicKey, id: Uuid, available: set<Hash>, target: Link, after: LogState)
    requires Passable(log, self, id, available, target) && Segment(log, id, target) != []
    requires Segment(after, id, target) == Segment(log, id, target)[1..]
    requires Newest(after, id, target) == Some(Segment(log, id, target)[0])
    ensures Passable(after, self, id, available, target)
  {
    assert forall l :: l in Segment(after, id, target) ==> l in Segment(log, id, target);
    assert Segment(log, id, target)[0] in Segment(log, id, target);
  }

  /** One job: it appends one version while the reach lasts, and then changes nothing. */
  lemma OneJob(log: LogState, self: PublicKey, id: Uuid, available: set<Hash>, target: Link)
    requires Proper(log, id) && HeightsCount(target)
    ensures var after := Execute(log, self, id, available, target).log;
            var reach := ReachOf(log, self, id, available, target);
            && Proper(after, id)
            && (reach == 0 ==> after == log)
            && (reach > 0 ==> ReachOf(after, self, id, available, target) == reach - 1
                              && Missing(after, id, target) == Missing(log, id, target) - 1)
  {
    JobKeepsConsistent(log, Job(self, id, available, target));
    JobKeepsGrounded(log, Job(self, id, available, target));
    MissingIsSegment(log, id, target);
    JobProgressExactlyWhen(log, self, id, available, target);
    if Progresses(log, self, id, available, target) {
      SegmentOneLess(log, EntryOf(id, Segment(log, id, target)[0]), target);
      PassableAfter(log, self, id, available, target, Execute(log, self, id, available, target).log);
    }
  }

  /** The same job again and again. */
  function Repeat(log: LogState, self: PublicKey, id: Uuid, available: set<Hash>, target: Link, n: nat): LogState {
    Iterate(log, (l: LogState) => Execute(l, self, id, available, target).log, n)
  }

  /** A log that has come as far as the reach went down. */
  ghost predicate OnTheWay(log: LogState, l: LogState, self: PublicKey, id: Uuid, available: set<Hash>, target: Link) {
    && Proper(l, id)
    && Missing(l, id, target) - ReachOf(l, self, id, available, target)
       == Missing(log, id, target) - ReachOf(log, self, id, available, target)
  }

  lemma AfterRepeats(log: LogState, self: PublicKey, id: Uuid, available: set<Hash>, target: Link, n: nat)
    requires Proper(log, id) && HeightsCount(target)
    ensures var after, reach := Repeat(log, self, id, available, target, n), ReachOf(log, self, id, available, target);
            && OnTheWay(log, after, self, id, available, target)
            && ReachOf(after, self, id, available, target) == if n < reach then reach - n else 0
  {
    forall l | OnTheWay(log, l, self, id, available, target)
      ensures var l', reach := Execute(l, self, id, available, target).log, ReachOf(l, self, id, available, target);
              && OnTheWay(log, l', self, id, available, target)
              && ReachOf(l', self, id, available, target) == if reach > 0 then reach - 1 else 0
    {
      OneJob(l, self, id, available, target);
    }
    CountsDown(log, (l: LogState) => Execute(l, self, id, available, target).log,
               (l: LogState) => OnTheWay(log, l, self, id, available, target),
               (l: LogState) => ReachOf(l, self, id, available, target), n);
  }

  /** Jobs bring a log to the target: all that is missing can be had and is in order, and the author of the target is
      known throughout. */
  ghost predicate CanFollow(log: LogState, self: PublicKey, id: Uuid, available: set<Hash>, target: Link) {
    Passable(log, self, id, available, target) && AuthorKnownThroughout(log, id, target)
  }

  /** Then, and only then, the reach is all that is missing. */
  lemma ReachIsAllWhen(log: LogState, self: PublicKey, id: Uuid, available: set<Hash>, target: Link)
    requires Proper(log, id)
    ensures var reach, missing := ReachOf(log, self, id, available, target), Missing(log, id, target);
            reach <= missing && (missing > 0 ==> (reach == missing <==> CanFollow(log, self, id, available, target)))
  {
    MissingIsSegment(log, id, target);
    ReachesAllWhen(target, CheckedAgainst(log, id, target), Segment(log, id, target));
  }

  /** Catching up, exactly, for any target whose heights count up: after n jobs the target is logged if and only if it
      was before, or n is at least the number of missing versions and the log can follow. Otherwise the peer stays where
      the first check fails: n jobs append n versions, up to that one, and no further job changes anything. */
  lemma CatchesUp(log: LogState, self: PublicKey, id: Uuid, available: set<Hash>, target: Link, n: nat)
    requires Proper(log, id) && HeightsCount(target)
    ensures var after, missing := Repeat(log, self, id, available, target, n), Missing(log, id, target);
            var reach := ReachOf(log, self, id, available, target);
            && (Logged(after, id, target) <==>
                  Logged(log, id, target) || (n >= missing && CanFollow(log, self, id, available, target)))
            && Missing(after, id, target) == missing - (if n < reach then n else reach)
            && (n >= reach ==> Execute(after, self, id, available, target).log == after)
  {
    AfterRepeats(log, self, id, available, target, n);
    var after := Repeat(log, self, id, available, target, n);
    OneJob(after, self, id, available, target);
    ReachIsAllWhen(log, self, id, available, target);
    LoggedWhenNothingMissing(log, id, target);
    LoggedWhenNothingMissing(after, id, target);
  }

  // ---------- a history without obstacles ----------

  /** The whole history can be fetched. */
  ghost predicate Supplied(available: set<Hash>, target: Link) {
    forall l :: l in Chain(target) ==> Fetchable(available, l)
  }

  /** Heights count up, every version is properly authored, and the receiver is listed in the target. */
  ghost predicate GoodTarget(target: Link, self: PublicKey) {
    && HeightsCount(target)
    && (forall l :: l in Chain(target) ==> ProperlyAuthored(l))
    && ListedIn(target, self)
  }

  /** Then only the standing of the author can be in the way. */
  lemma GoodIsPassable(log: LogState, self: PublicKey, id: Uuid, available: set<Hash>, target: Link)
    requires GoodTarget(target, self) && Supplied(available, target) && SharesHistory(log, id, target)
    ensures Passable(log, self, id, available, target)
  {
    SegmentIsContiguous(log, id, target);
    NewestIsLogged(log, id, target);
  }

  /** Fixed shares: the target's author is an owner in every version of the target's history. */
  ghost predicate FixedShares(target: Link) {
    forall l :: l in Chain(target) ==> AuthorListed(target, l)
  }

  /** Then it is known throughout. */
  lemma FixedSharesKnown(log: LogState, id: Uuid, target: Link)
    requires FixedShares(target)
    ensures AuthorKnownThroughout(log, id, target) && AuthorKnown(log, id, target)
  {
    NewestIsLogged(log, id, target);
    SegmentIsContiguous(log, id, target);
  }
}
