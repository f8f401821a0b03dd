/** A replica follows a version: what it downloads is enough to read everything. */
module Replicas {
  import opened Content
  import opened Trees
  import opened BlobTrees
  import opened Mounts
  import opened MountRuns
  import opened HashLists

  /** Both stores load the version alike for every key, and read the same bytes at every path. */
  ghost predicate ReadsAlike(replica: Store, writer: Store, link: Link) {
    forall key :: Load(replica, link, key) == Load(writer, link, key)
                  && (Load(writer, link, key).Ok? ==>
                        forall path :: Cat(replica, Load(writer, link, key).value.entry, path)
                                       == Cat(writer, Load(writer, link, key).value.entry, path))
  }

  lemma VersionIsComplete(actions: seq<Action>, link: Link)
    requires link.hash in RunOf(actions).store && link.hash.blob.ManifestBlob?
    ensures link.hash.blob.manifest.pins.hash.blob.PinList?
    ensures NeededFor(link) <= RunOf(actions).store
  {
    PinsCoverEveryRun(actions);
    assert link.hash == HashOf(ManifestBlob(link.hash.blob.manifest));
    assert VersionOk(RunOf(actions).store, link.hash.blob.manifest);
  }

  /** The bytes of the pin list of the version are the hashes of its pins, written in some order. */
  ghost predicate PinBytes(c: HashCodec, link: Link)
    requires link.hash.blob.ManifestBlob?
  {
    var list := link.hash.blob.manifest.pins.hash;
    && list.blob.PinList?
    && exists order ::
         Inverts(c, order) && (forall h :: h in order <==> h in list.blob.pins) && c.content(list) == Encode(c, order)
  }

  /** The bytes of the list give back the pins that were written. */
  lemma PinBytesList(c: HashCodec, link: Link)
    requires link.hash.blob.ManifestBlob? && PinBytes(c, link)
    ensures var list := link.hash.blob.manifest.pins.hash;
            Decode(c, c.content(list)).Some? && Listed(c, list) == list.blob.pins
  {
    var list := link.hash.blob.manifest.pins.hash;
    var order :|
      Inverts(c, order) && (forall h :: h in order <==> h in list.blob.pins) && c.content(list) == Encode(c, order);
    PinsSurviveTheList(c, list.blob.pins, order);
  }

  /** A version that some run of mounts has written, with the link of its pin list. */
  ghost predicate Written(actions: seq<Action>, link: Link, pins: Link, c: HashCodec) {
    && link.hash in RunOf(actions).store && link.hash.blob.ManifestBlob?
    && link.hash.blob.manifest.pins == pins && PinBytes(c, link)
  }

  /** Downloads a pin list, reads its bytes and downloads what they list. If it is the list of a version that some run
      of mounts has written, and whose manifest is here, the download succeeds if the sources hold what the writers
      hold; and whenever it succeeds, whatever else the replica and the sources have or lack, the replica loads and
      reads the version as the writers do. */
  method DownloadPins(c: HashCodec, blobs: BlobsStore, sources: Store, pins: Link, ghost actions: seq<Action>,
                      ghost link: Link) returns (ok: bool)
    modifies blobs
    ensures ok <==>
            Decode(c, c.content(pins.hash)).Some? && {pins.hash} + Listed(c, pins.hash) <= old(blobs.present) + sources
    ensures Written(actions, link, pins, c) && RunOf(actions).store <= sources ==> ok
    ensures Written(actions, link, pins, c) && link.hash in old(blobs.present) && ok ==>
              ReadsAlike(blobs.present, RunOf(actions).store, link)
  {
    ok := DownloadHashList(c, blobs, sources, pins.hash);
    if Written(actions, link, pins, c) {
      VersionIsComplete(actions, link);
      PinBytesList(c, link);
      if ok && link.hash in old(blobs.present) {
        NeededReadsAlike(actions, link, blobs.present);
      }
    }
  }

  lemma NeededReadsAlike(actions: seq<Action>, link: Link, replica: Store)
    requires link.hash in RunOf(actions).store && link.hash.blob.ManifestBlob?
    requires link.hash.blob.manifest.pins.hash.blob.PinList? && NeededFor(link) <= replica
    ensures ReadsAlike(replica, RunOf(actions).store, link)
  {
    forall key
      ensures Load(replica, link, key) == Load(RunOf(actions).store, link, key)
      ensures Load(RunOf(actions).store, link, key).Ok? ==>
                forall path :: Cat(replica, Load(RunOf(actions).store, link, key).value.entry, path)
                               == Cat(RunOf(actions).store, Load(RunOf(actions).store, link, key).value.entry, path)
    {
      ReplicaReadsTheSame(actions, link, key, replica);
    }
  }
}
