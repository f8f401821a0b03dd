/** Pin lists as bytes, 32 for each hash, and the download of everything a list names. */
module HashLists {
  import opened Content
  import opened Trees
  import opened BlobTrees

  const HASH_SIZE := 32

  /** The bytes of a hash, the hash of 32 bytes, and the bytes of the blob that a hash names. */
  datatype HashCodec = HashCodec(toBytes: Hash -> seq<bv8>, fromBytes: seq<bv8> -> Hash, content: Hash -> seq<bv8>)

  /** The codec gives these hashes back. */
  ghost predicate Inverts(c: HashCodec, hashes: seq<Hash>) {
    forall h :: h in hashes ==> |c.toBytes(h)| == HASH_SIZE && c.fromBytes(c.toBytes(h)) == h
  }

  function Encode(c: HashCodec, hashes: seq<Hash>): seq<bv8> {
    if hashes == [] then [] else Encode(c, hashes[..|hashes| - 1]) + c.toBytes(hashes[|hashes| - 1])
  }

  /** A list must be whole. */
  function Decode(c: HashCodec, data: seq<bv8>): Option<seq<Hash>> {
    if |data| % HASH_SIZE != 0 then None else Some(Chunks(c, data, |data| / HASH_SIZE))
  }

  /** The first `n` hashes of a list. */
  function Chunks(c: HashCodec, data: seq<bv8>, n: nat): seq<Hash>
    requires HASH_SIZE * n <= |data|
  {
    if n == 0 then [] else Chunks(c, data, n - 1) + [c.fromBytes(data[HASH_SIZE * (n - 1)..HASH_SIZE * n])]
  }

  method CreateHashList(c: HashCodec, hashes: seq<Hash>) returns (data: seq<bv8>)
    ensures data == Encode(c, hashes)
  {
    data := [];
    for i := 0 to |hashes|
      invariant data == Encode(c, hashes[..i])
    {
      assert hashes[..i + 1][..i] == hashes[..i];
      data := data + c.toBytes(hashes[i]);
    }
    assert hashes[..|hashes|] == hashes;
  }

  method ReadHashList(c: HashCodec, data: seq<bv8>) returns (hashes: Option<seq<Hash>>)
    ensures hashes == Decode(c, data)
    ensures hashes.None? <==> |data| % 32 != 0
    ensures hashes.Some? ==>
              && |data| == 32 * |hashes.value|
              && forall i :: 0 <= i < |hashes.value| ==> hashes.value[i] == c.fromBytes(data[32 * i..32 * i + 32])
  {
    if |data| % HASH_SIZE != 0 {
      return None;
    }
    var list := [];
    for i := 0 to |data| / HASH_SIZE
      invariant list == Chunks(c, data, i) && |list| == i
      invariant forall j :: 0 <= j < i ==> list[j] == c.fromBytes(data[32 * j..32 * j + 32])
    {
      list := list + [c.fromBytes(data[HASH_SIZE * i..HASH_SIZE * (i + 1)])];
    }
    return Some(list);
  }

  lemma {:induction false} ChunksOfPrefix(c: HashCodec, data: seq<bv8>, more: seq<bv8>, n: nat)
    requires HASH_SIZE * n <= |data|
    ensures Chunks(c, data + more, n) == Chunks(c, data, n)
  {
    if n > 0 {
      ChunksOfPrefix(c, data, more, n - 1);
      assert (data + more)[HASH_SIZE * (n - 1)..HASH_SIZE * n] == data[HASH_SIZE * (n - 1)..HASH_SIZE * n];
    }
  }

  lemma OneMoreChunk(c: HashCodec, data: seq<bv8>, more: seq<bv8>, n: nat)
    requires |data| == HASH_SIZE * n && |more| == HASH_SIZE
    ensures |data + more| == HASH_SIZE * (n + 1)
    ensures Chunks(c, data + more, n + 1) == Chunks(c, data, n) + [c.fromBytes(more)]
  {
    ChunksOfPrefix(c, data, more, n);
    assert (data + more)[HASH_SIZE * n..HASH_SIZE * (n + 1)] == more;
  }

  lemma {:induction false} ChunksRoundTrip(c: HashCodec, hashes: seq<Hash>)
    requires Inverts(c, hashes)
    ensures |Encode(c, hashes)| == HASH_SIZE * |hashes|
    ensures Chunks(c, Encode(c, hashes), |hashes|) == hashes
  {
    if hashes != [] {
      var front, last := hashes[..|hashes| - 1], hashes[|hashes| - 1];
      ChunksRoundTrip(c, front);
      assert last in hashes;
      OneMoreChunk(c, Encode(c, front), c.toBytes(last), |front|);
      assert hashes == front + [last];
    }
  }

  /** Reading a list gives back what it was made from. */
  lemma HashListRoundTrip(c: HashCodec, hashes: seq<Hash>)
    requires Inverts(c, hashes)
    ensures |Encode(c, hashes)| == HASH_SIZE * |hashes|
    ensures Decode(c, Encode(c, hashes)) == Some(hashes)
  {
    ChunksRoundTrip(c, hashes);
  }

  /** Whatever order the pins are written in, the set that is read is the set that was written. */
  lemma PinsSurviveTheList(c: HashCodec, pins: set<Hash>, order: seq<Hash>)
    requires Inverts(c, order) && forall h :: h in order <==> h in pins
    ensures Decode(c, Encode(c, order)).Some? && pins == set h | h in Decode(c, Encode(c, order)).value
  {
    HashListRoundTrip(c, order);
  }

  /** A blob that is here, or that a source supplies. */
  method DownloadHash(blobs: BlobsStore, sources: Store, hash: Hash) returns (ok: bool)
    modifies blobs
    ensures ok <==> hash in old(blobs.present) || hash in sources
    ensures blobs.present == if ok then old(blobs.present) + {hash} else old(blobs.present)
  {
    ok := hash in blobs.present || hash in sources;
    if ok {
      blobs.present := blobs.present + {hash};
    }
  }

  /** The hashes that the bytes of a list stand for. */
  ghost function Listed(c: HashCodec, list: Hash): set<Hash> {
    var hashes := Decode(c, c.content(list));
    if hashes.None? then {} else set h | h in hashes.value
  }

  /** Downloads a list, reads its bytes and downloads everything on it in order, and stops at the first blob that cannot
      be had. It succeeds exactly when the bytes are a list and all of it can be had, and then all of it is here. */
  method DownloadHashList(c: HashCodec, blobs: BlobsStore, sources: Store, list: Hash) returns (ok: bool)
    modifies blobs
    ensures ok <==>
            Decode(c, c.content(list)).Some? && {list} + Listed(c, list) <= old(blobs.present) + sources
    ensures ok ==> blobs.present == old(blobs.present) + {list} + Listed(c, list)
    ensures old(blobs.present) <= blobs.present <= old(blobs.present) + {list} + Listed(c, list)
  {
    ok := DownloadHash(blobs, sources, list);
    if !ok {
      assert list in {list} + Listed(c, list);
      return;
    }
    var hashes := ReadHashList(c, c.content(list));
    if hashes.None? {
      return false;
    }
    ok := DownloadAll(blobs, sources, hashes.value);
    assert old(blobs.present) + {list} + sources == old(blobs.present) + sources;
    assert Listed(c, list) == set h | h in hashes.value;
  }

  /** The loop over the hashes of a list. */
  method DownloadAll(blobs: BlobsStore, sources: Store, hashes: seq<Hash>) returns (ok: bool)
    modifies blobs
    ensures ok <==> (set h | h in hashes) <= old(blobs.present) + sources
    ensures ok ==> blobs.present == old(blobs.present) + set h | h in hashes
    ensures old(blobs.present) <= blobs.present <= old(blobs.present) + set h | h in hashes
  {
    ok := true;
    for i := 0 to |hashes|
      invariant ok
      invariant blobs.present == old(blobs.present) + set h | h in hashes[..i]
      invariant (set h | h in hashes[..i]) <= old(blobs.present) + sources
    {
      assert hashes[..i + 1] == hashes[..i] + [hashes[i]];
      ok := DownloadHash(blobs, sources, hashes[i]);
      if !ok {
        assert hashes[i] in (set h | h in hashes) && hashes[i] !in old(blobs.present) + sources;
        assert (set h | h in hashes[..i]) <= set h | h in hashes;
        return;
      }
    }
    assert hashes[..|hashes|] == hashes;
  }
}
