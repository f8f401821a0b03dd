/** The sync job as it runs: two backward walks and an append to the log object. */
module SyncJobs {
  import opened Content
  import opened MemoryBucketLogs
  import opened Sync

  method FindAncestorOf(log: MemoryBucketLog, id: Uuid, available: set<Hash>, target: Link)
    returns (r: Result<Option<Link>>)
    ensures r == FindAncestor(log.Value(), id, available, target)
  {
    var current := target;
    while true
      invariant FindAncestor(log.Value(), id, available, target) == FindAncestor(log.Value(), id, available, current)
      decreases current
    {
      var m := Fetch(available, current);
      if m.Err? {
        return Err(m.error);
      }
      if id in log.linkIndex && current in log.linkIndex[id] && log.linkIndex[id][current] != [] {
        return Ok(Some(current));
      }
      if m.value.previous.None? {
        return Ok(None);
      }
      current := m.value.previous.value;
    }
  }

  function Reversed<T>(s: seq<T>): seq<T> {
    if s == [] then [] else [s[|s| - 1]] + Reversed(s[..|s| - 1])
  }

  ghost function Before(older: Result<seq<Link>>, newer: seq<Link>): Result<seq<Link>> {
    if older.Err? then older else Ok(older.value + newer)
  }

  lemma BeforeStep(older: Result<seq<Link>>, link: Link, newer: seq<Link>)
    ensures Before(Before(older, [link]), newer) == Before(older, [link] + newer)
    ensures Before(older, []) == older
  {
    if older.Ok? {
      assert older.value + [link] + newer == older.value + ([link] + newer);
      assert older.value + [] == older.value;
    }
  }

  /** Collects the links newest first and turns the list around at the end. */
  method DownloadChainOf(available: set<Hash>, target: Link, stop: Option<Link>) returns (r: Result<seq<Link>>)
    ensures r == DownloadChain(available, target, stop)
  {
    var collected: seq<Link> := [];
    var current := target;
    BeforeStep(DownloadChain(available, target, stop), target, []);
    while true
      invariant DownloadChain(available, target, stop)
                == Before(DownloadChain(available, current, stop), Reversed(collected))
      decreases current
    {
      var m := Fetch(available, current);
      if m.Err? {
        return Err(m.error);
      }
      if stop == Some(current) {
        assert [] + Reversed(collected) == Reversed(collected);
        return Ok(Reversed(collected));
      }
      ghost var newer := Reversed(collected);
      assert (collected + [current])[..|collected|] == collected;
      collected := collected + [current];
      assert Reversed(collected) == [current] + newer;
      if m.value.previous.None? {
        return Ok(Reversed(collected));
      }
      BeforeStep(DownloadChain(available, m.value.previous.value, stop), current, newer);
      current := m.value.previous.value;
    }
  }

  /** Checks the versions from the oldest to the newest. */
  method CheckAuthorsOf(links: seq<Link>, base: Option<Manifest>) returns (r: Result<()>)
    requires forall l :: l in links ==> l.hash.blob.ManifestBlob?
    ensures r == CheckAuthors(links, base)
  {
    var previous := base;
    for i := 0 to |links|
      invariant CheckAuthors(links, base) == CheckAuthors(links[i..], previous)
    {
      assert links[i..][1..] == links[i + 1..];
      var checked := VerifyAuthor(links[i].hash.blob.manifest, previous);
      if checked.Err? {
        return Err(checked.error);
      }
      previous := ManifestOf(links[i]);
    }
    return Ok(());
  }

  /** The first half of a job: everything up to the checked list of versions. */
  method FindCandidates(log: MemoryBucketLog, id: Uuid, available: set<Hash>, target: Link)
    returns (r: Result<Option<(Option<Link>, seq<Link>)>>)
    ensures r == Candidates(log.Value(), id, available, target)
  {
    var known := id in log.entries;
    var ancestor := Ok(None);
    if known {
      ancestor := FindAncestorOf(log, id, available, target);
    }
    if ancestor.Err? {
      return Err(ancestor.error);
    }
    if known && ancestor.value.None? {
      return Ok(None);
    }
    var links := DownloadChainOf(available, target, ancestor.value);
    if links.Err? {
      return Err(links.error);
    }
    DownloadedAreManifests(available, target, ancestor.value);
    var checked := CheckAuthorsOf(links.value, if ancestor.value.None? then None else ManifestOf(ancestor.value.value));
    if checked.Err? {
      return Err(checked.error);
    }
    return Ok(Some((ancestor.value, links.value)));
  }

  /** The second half: the check of the latest version. */
  method Choose(log: MemoryBucketLog, self: PublicKey, id: Uuid, available: set<Hash>, target: Link)
    returns (r: Result<Option<Link>>)
    ensures r == Chosen(log.Value(), self, id, available, target)
  {
    var found := FindCandidates(log, id, available, target);
    if found.Err? {
      return Err(found.error);
    }
    if found.value.None? {
      return Ok(None);
    }
    var (ancestor, links) := found.value.value;
    if links == [] {
      return Ok(None);
    }
    var base := if ancestor.None? then None else ManifestOf(ancestor.value);
    var latest := VerifyProvenance(self, links[|links| - 1].hash.blob.manifest, base);
    if latest.Err? {
      return Err(latest.error);
    }
    if latest.value.NotAuthorized? {
      return Ok(None);
    }
    return Ok(Some(links[0]));
  }

  method ExecuteJob(log: MemoryBucketLog, self: PublicKey, id: Uuid, available: set<Hash>, target: Link)
    returns (r: Result<()>)
    modifies log
    ensures JobOutcome(r, log.Value()) == Execute(old(log.Value()), self, id, available, target)
  {
    var chosen := Choose(log, self, id, available, target);
    if chosen.Err? {
      return Err(chosen.error);
    }
    if chosen.value.None? {
      return Ok(());
    }
    var appended := log.AppendEntry(EntryOf(id, chosen.value.value));
    r := if appended.Appended? then Ok(()) else Err(AppendRejected);
  }
}
