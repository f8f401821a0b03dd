/** One sync job: find the newest shared version, fetch the versions above it, check their authors, log the oldest. */
module Sync {
  import opened Content
  import opened BucketLog
  import opened Chains
  import SaveLoad

  datatype SyncError = DownloadFailed | InvalidSignature | AuthorNotInShares | AuthorNotWriter | AppendRejected

  datatype Result<+T> = Ok(value: T) | Err(error: SyncError)

  datatype Provenance = Authorized | NotAuthorized | UnsignedLegacy

  /** A job reads a manifest that the peer has or that one of its sources supplies; anything else fails. */
  function Fetch(available: set<Hash>, link: Link): Result<Manifest> {
    if link.hash in available && link.hash.blob.ManifestBlob? then Ok(link.hash.blob.manifest) else Err(DownloadFailed)
  }

  predicate Logged(log: LogState, id: Uuid, link: Link) {
    Has(log, id, link) != []
  }

  /** Walks back from a link to the first one that is logged. */
  function FindAncestor(log: LogState, id: Uuid, available: set<Hash>, link: Link): Result<Option<Link>>
    decreases link
  {
    var m := Fetch(available, link);
    if m.Err? then Err(m.error)
    else if Logged(log, id, link) then Ok(Some(link))
    else if m.value.previous.None? then Ok(None)
    else FindAncestor(log, id, available, m.value.previous.value)
  }

  /** Walks back from a link to the stop link, or to genesis; gives the links after the stop, oldest first. */
  function DownloadChain(available: set<Hash>, link: Link, stop: Option<Link>): Result<seq<Link>>
    decreases link
  {
    var m := Fetch(available, link);
    if m.Err? then Err(m.error)
    else if stop == Some(link) then Ok([])
    else if m.value.previous.None? then Ok([link])
    else
      var older := DownloadChain(available, m.value.previous.value, stop);
      if older.Err? then older else Ok(older.value + [link])
  }

  /** A signed manifest must be signed by its author, who must be an owner in the shares of the version before it, or
      in its own shares if there is none. Unsigned manifests pass. */
  function VerifyAuthor(m: Manifest, previous: Option<Manifest>): Result<Provenance> {
    if m.author.None? || m.signature.None? then Ok(UnsignedLegacy)
    else if !SaveLoad.VerifySignature(m) then Err(InvalidSignature)
    else
      var shares := if previous.Some? then previous.value.shares else m.shares;
      if m.author.value !in shares then Err(AuthorNotInShares)
      else if !shares[m.author.value].role.Owner? then Err(AuthorNotWriter)
      else Ok(Authorized)
  }

  function VerifyProvenance(self: PublicKey, m: Manifest, previous: Option<Manifest>): Result<Provenance> {
    if self !in m.shares then Ok(NotAuthorized) else VerifyAuthor(m, previous)
  }

  function ManifestOf(link: Link): Option<Manifest> {
    if link.hash.blob.ManifestBlob? then Some(link.hash.blob.manifest) else None
  }

  /** Checks a list of versions, each against the one before it and the first against the base. */
  function CheckAuthors(links: seq<Link>, base: Option<Manifest>): Result<()>
    requires forall l :: l in links ==> l.hash.blob.ManifestBlob?
  {
    if links == [] then Ok(())
    else
      var first := VerifyAuthor(links[0].hash.blob.manifest, base);
      if first.Err? then Err(first.error) else CheckAuthors(links[1..], ManifestOf(links[0]))
  }

  function EntryOf(id: Uuid, link: Link): Entry
    requires link.hash.blob.ManifestBlob?
  {
    var m := link.hash.blob.manifest;
    Entry(id, m.name, link, m.previous, m.height, m.public.Some?)
  }

  lemma {:induction false} DownloadedAreManifests(available: set<Hash>, link: Link, stop: Option<Link>)
    requires DownloadChain(available, link, stop).Ok?
    ensures forall l :: l in DownloadChain(available, link, stop).value ==> l.hash.blob.ManifestBlob?
    decreases link
  {
    var m := link.hash.blob.manifest;
    if stop != Some(link) && m.previous.Some? {
      DownloadedAreManifests(available, m.previous.value, stop);
    }
  }

  /** The versions a job may apply: fetched and checked, or the reason why there are none. */
  function Candidates(log: LogState, id: Uuid, available: set<Hash>, target: Link)
    : (r: Result<Option<(Option<Link>, seq<Link>)>>)
    ensures r.Ok? && r.value.Some? ==> forall l :: l in r.value.value.1 ==> l.hash.blob.ManifestBlob?
  {
    var ancestor := if Exists(log, id) then FindAncestor(log, id, available, target) else Ok(None);
    if ancestor.Err? then Err(ancestor.error)
    else if Exists(log, id) && ancestor.value.None? then Ok(None)
    else
      var links := DownloadChain(available, target, ancestor.value);
      if links.Err? then Err(links.error)
      else
        DownloadedAreManifests(available, target, ancestor.value);
        var base := if ancestor.value.None? then None else ManifestOf(ancestor.value.value);
        var checked := CheckAuthors(links.value, base);
        if checked.Err? then Err(checked.error) else Ok(Some((ancestor.value, links.value)))
  }

  /** The version a job will append: the oldest of the fetched ones, once the latest has passed its check too. A bucket
      that is known but shares nothing with the target, and a target that does not list this peer, give none. */
  function Chosen(log: LogState, self: PublicKey, id: Uuid, available: set<Hash>, target: Link)
    : (r: Result<Option<Link>>)
    ensures r.Ok? && r.value.Some? ==> r.value.value.hash.blob.ManifestBlob?
  {
    var found := Candidates(log, id, available, target);
    if found.Err? then Err(found.error)
    else if found.value.None? || found.value.value.1 == [] then Ok(None)
    else
      var (ancestor, links) := found.value.value;
      var base := if ancestor.None? then None else ManifestOf(ancestor.value);
      var latest := VerifyProvenance(self, links[|links| - 1].hash.blob.manifest, base);
      if latest.Err? then Err(latest.error)
      else if latest.value.NotAuthorized? then Ok(None)
      else Ok(Some(links[0]))
  }

  datatype JobOutcome = JobOutcome(result: Result<()>, log: LogState)

  /** The whole job. */
  function Execute(log: LogState, self: PublicKey, id: Uuid, available: set<Hash>, target: Link): JobOutcome {
    match Chosen(log, self, id, available, target)
    case Err(e) => JobOutcome(Err(e), log)
    case Ok(None) => JobOutcome(Ok(()), log)
    case Ok(Some(link)) =>
      var e := EntryOf(id, link);
      JobOutcome(if Validate(log, e).Appended? then Ok(()) else Err(AppendRejected), Append(log, e))
  }

  // ---------- what a job fetches ----------

  /** The versions of a history that are not logged, down to the first logged one; oldest first. */
  function Segment(log: LogState, id: Uuid, link: Link): seq<Link>
    decreases link
  {
    if Logged(log, id, link) then []
    else if Previous(link).None? then [link]
    else Segment(log, id, Previous(link).value) + [link]
  }

  /** The first logged link of a history. */
  function Newest(log: LogState, id: Uuid, link: Link): Option<Link>
    decreases link
  {
    if Logged(log, id, link) then Some(link)
    else if Previous(link).None? then None
    else Newest(log, id, Previous(link).value)
  }

  lemma {:induction false} AncestorIsNewest(log: LogState, id: Uuid, available: set<Hash>, link: Link)
    requires FindAncestor(log, id, available, link).Ok?
    ensures FindAncestor(log, id, available, link).value == Newest(log, id, link)
    decreases link
  {
    if !Logged(log, id, link) && Previous(link).Some? {
      AncestorIsNewest(log, id, available, Previous(link).value);
    }
  }

  lemma {:induction false} NewestIsLogged(log: LogState, id: Uuid, link: Link)
    ensures Newest(log, id, link).Some? ==>
              Logged(log, id, Newest(log, id, link).value) && Newest(log, id, link).value in Chain(link)
    decreases link
  {
    if !Logged(log, id, link) && Previous(link).Some? {
      NewestIsLogged(log, id, Previous(link).value);
    }
  }

  /** The list is the contiguous part of the history after the newest logged version, oldest first. */
  lemma {:induction false} SegmentIsContiguous(log: LogState, id: Uuid, link: Link)
    ensures var s, c, newest := Segment(log, id, link), Chain(link), Newest(log, id, link);
            && |s| <= |c| && s == c[|c| - |s|..]
            && (newest.None? <==> |s| == |c|)
            && (newest.Some? ==> newest.value == c[|c| - |s| - 1])
            && (s != [] ==> Previous(s[0]) == newest)
            && (forall l :: l in s ==> !Logged(log, id, l))
    decreases link
  {
    if !Logged(log, id, link) && Previous(link).Some? {
      SegmentIsContiguous(log, id, Previous(link).value);
    }
  }

  lemma {:induction false} DownloadIsSegment(log: LogState, id: Uuid, available: set<Hash>, link: Link,
                                             stop: Option<Link>)
    requires DownloadChain(available, link, stop).Ok?
    requires stop == Newest(log, id, link)
    ensures DownloadChain(available, link, stop).value == Segment(log, id, link)
    decreases link
  {
    NewestIsLogged(log, id, link);
    if !Logged(log, id, link) && Previous(link).Some? {
      DownloadIsSegment(log, id, available, Previous(link).value, stop);
    }
  }

  /** Nothing is logged in a bucket that does not exist. */
  ghost predicate NothingUnknown(log: LogState, id: Uuid) {
    !Exists(log, id) ==> forall l :: !Logged(log, id, l)
  }

  /** A job that gets as far as its candidates has the newest logged version of the target's history and exactly the
      versions after it. */
  lemma CandidatesAreSegment(log: LogState, id: Uuid, available: set<Hash>, target: Link)
    requires NothingUnknown(log, id)
    requires Candidates(log, id, available, target).Ok? && Candidates(log, id, available, target).value.Some?
    ensures Candidates(log, id, available, target).value.value == (Newest(log, id, target), Segment(log, id, target))
  {
    if Exists(log, id) {
      AncestorIsNewest(log, id, available, target);
    } else {
      NewestIsLogged(log, id, target);
    }
    DownloadIsSegment(log, id, available, target, Newest(log, id, target));
  }
}
