/** A peer saves a mount: a new version in the store and a new entry in the log. */
module PeerObjects {
  import opened Content
  import opened Trees
  import opened Mounts
  import opened MountObjects
  import opened SaveLoad
  import BucketLog
  import opened MemoryBucketLogs

  /** Saves the mount and appends the version to the log. The version is written even if the append is refused. */
  method SaveMount(mount: Mount, log: MemoryBucketLog, publish: bool, secret: Secret) returns (ok: bool, link: Link)
    modifies mount, mount.opsLog, mount.blobs, log
    ensures Outcome(Ok(()), mount.State(), mount.blobs.present)
            == Save(old(mount.State()), old(mount.blobs.present), publish, secret)
    ensures log.Value() == BucketLog.Append(old(log.Value()), SavedEntry(old(mount.State()), publish, secret))
    ensures ok == BucketLog.Validate(old(log.Value()), SavedEntry(old(mount.State()), publish, secret)).Appended?
    ensures link == mount.link
    ensures ok ==> link in BucketLog.Heads(log.Value(), mount.manifest.id, mount.height)
  {
    var id, name := mount.manifest.id, mount.manifest.name;
    ghost var m := mount.State();
    var saved, previous, height := mount.SaveVersion(publish, secret);
    var e := BucketLog.Entry(id, name, saved, Some(previous), height, mount.manifest.public.Some?);
    var result := log.AppendEntry(e);
    ok, link := result.Appended?, saved;
    if ok {
      SavedMountIsLogged(m, {}, old(log.Value()), publish, secret);
    }
  }
}
