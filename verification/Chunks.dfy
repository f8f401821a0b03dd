/** The object store's transfer of blobs in leaves of at most 1024 bytes. */
module Chunks {
  import opened Content

  const CHUNK_SIZE: nat := 1024
  const MAX_IMPORT_SIZE: nat := 1024 * 1024 * 1024

  datatype Leaf = Leaf(offset: nat, data: seq<bv8>)

  /** What a receiver gets: leaves, and tree nodes that carry no content. */
  datatype Item = ParentItem | LeafItem(leaf: Leaf)

  datatype ByteRange = Bounded(start: nat, end: nat) | From(start: nat)

  datatype Import = Stored(bytes: seq<bv8>) | TooLarge | HashMismatch

  // ---------- sending ----------

  /** The leaves of a stretch of a blob. */
  function Leaves(data: seq<bv8>, start: nat, end: nat): seq<Leaf>
    requires end <= |data|
    decreases end - start
  {
    if start >= end then [] else
    var next := if start + CHUNK_SIZE < end then start + CHUNK_SIZE else end;
    [Leaf(start, data[start..next])] + Leaves(data, next, end)
  }

  /** Sends a stretch leaf by leaf. */
  method SendLeaves(data: seq<bv8>, start: nat, end: nat) returns (leaves: seq<Leaf>)
    requires end <= |data|
    ensures leaves == Leaves(data, start, end)
  {
    leaves := [];
    var offset := start;
    while offset < end
      invariant leaves + Leaves(data, offset, end) == Leaves(data, start, end)
      decreases end - offset
    {
      var next := if offset + CHUNK_SIZE < end then offset + CHUNK_SIZE else end;
      var leaf := Leaf(offset, data[offset..next]);
      assert leaves + ([leaf] + Leaves(data, next, end)) == (leaves + [leaf]) + Leaves(data, next, end);
      leaves := leaves + [leaf];
      offset := next;
    }
  }

  method ExportBao(data: seq<bv8>) returns (leaves: seq<Leaf>)
    ensures leaves == Leaves(data, 0, |data|)
  {
    leaves := SendLeaves(data, 0, |data|);
  }

  /** The part of a range that is in a blob of a size. */
  function Clip(r: ByteRange, size: nat): (nat, nat) {
    var start := if r.start < size then r.start else size;
    match r
    case Bounded(_, end) => (start, if end < size then end else size)
    case From(_) => (start, size)
  }

  function Joined(leaves: seq<Leaf>): seq<bv8> {
    if leaves == [] then [] else leaves[0].data + Joined(leaves[1..])
  }

  /** The leaves of a stretch are small, are the bytes at their offsets, and join to exactly the stretch. */
  lemma {:induction false} LeavesJoinToStretch(data: seq<bv8>, start: nat, end: nat)
    requires end <= |data|
    ensures var leaves := Leaves(data, start, end);
            && (forall l :: l in leaves ==> 0 < |l.data| <= CHUNK_SIZE && SliceOf(l, data))
            && Joined(leaves) == if start < end then data[start..end] else []
    decreases end - start
  {
    if start < end {
      var next := if start + CHUNK_SIZE < end then start + CHUNK_SIZE else end;
      LeavesJoinToStretch(data, next, end);
      assert data[start..next] + (if next < end then data[next..end] else []) == data[start..end];
    }
  }

  /** Every byte of a stretch is in one of its leaves. */
  lemma {:induction false} LeavesCover(data: seq<bv8>, start: nat, end: nat, k: nat)
    requires start <= k < end <= |data|
    ensures exists l :: l in Leaves(data, start, end) && Covers(l, k)
    decreases end - start
  {
    var next := if start + CHUNK_SIZE < end then start + CHUNK_SIZE else end;
    var first := Leaf(start, data[start..next]);
    if k < next {
      assert first in Leaves(data, start, end) && Covers(first, k);
    } else {
      LeavesCover(data, next, end, k);
      var l :| l in Leaves(data, next, end) && Covers(l, k);
      assert l in Leaves(data, start, end);
    }
  }

  /** A byte position is in a range. */
  predicate InRange(r: ByteRange, k: nat) {
    r.start <= k && (r.Bounded? ==> k < r.end)
  }

  /** The bytes from position `k` on that are in a range, in order. */
  function Wanted(data: seq<bv8>, r: ByteRange, k: nat): seq<bv8>
    requires k <= |data|
    decreases |data| - k
  {
    if k == |data| then [] else (if InRange(r, k) then [data[k]] else []) + Wanted(data, r, k + 1)
  }

  /** The wanted bytes are a stretch of the blob. */
  lemma {:induction false} WantedIsStretch(data: seq<bv8>, r: ByteRange, k: nat)
    requires k <= |data|
    ensures var (start, end) := Clip(r, |data|);
            var from := if k < start then start else k;
            end <= |data| && Wanted(data, r, k) == if from < end then data[from..end] else []
    decreases |data| - k
  {
    if k < |data| {
      WantedIsStretch(data, r, k + 1);
      var (start, end) := Clip(r, |data|);
      if start <= k < end {
        assert data[k..end] == [data[k]] + data[k + 1..end];
      }
    }
  }

  /** A leaf that holds byte `k` of the blob. */
  ghost predicate Brings(leaves: seq<Leaf>, data: seq<bv8>, k: nat) {
    exists l :: l in leaves && Covers(l, k) && SliceOf(l, data)
  }

  /** What is sent for a range: the bytes of the range that the blob has, in order, in leaves of at most 1024 bytes that
      are the bytes at their offsets; so a byte is in a leaf exactly when it is in the range and in the blob. */
  ghost predicate SendsRange(data: seq<bv8>, r: ByteRange, leaves: seq<Leaf>) {
    && Joined(leaves) == Wanted(data, r, 0)
    && (forall l :: l in leaves ==> 0 < |l.data| <= 1024 && SliceOf(l, data))
    && (forall k: nat :: Brings(leaves, data, k) <==> InRange(r, k) && k < |data|)
  }

  lemma LeavesSendRange(data: seq<bv8>, r: ByteRange)
    ensures var (start, end) := Clip(r, |data|); end <= |data| && SendsRange(data, r, Leaves(data, start, end))
  {
    var (start, end) := Clip(r, |data|);
    WantedIsStretch(data, r, 0);
    LeavesJoinToStretch(data, start, end);
    forall k: nat ensures Brings(Leaves(data, start, end), data, k) <==> InRange(r, k) && k < |data| {
      LeavesWithin(data, start, end);
      if start <= k < end {
        LeavesCover(data, start, end, k);
      }
    }
  }

  /** No leaf reaches out of its stretch, and all but the last are full. */
  lemma {:induction false} LeavesWithin(data: seq<bv8>, start: nat, end: nat)
    requires end <= |data|
    ensures var leaves := Leaves(data, start, end);
            && (forall l :: l in leaves ==> start <= l.offset && l.offset + |l.data| <= end)
            && (forall i :: 0 <= i < |leaves| - 1 ==> |leaves[i].data| == 1024)
    decreases end - start
  {
    if start < end {
      LeavesWithin(data, if start + CHUNK_SIZE < end then start + CHUNK_SIZE else end, end);
    }
  }

  /** The size of the blob, and for each range what is sent for it. */
  method ExportRanges(data: seq<bv8>, ranges: seq<ByteRange>) returns (size: nat, sent: seq<seq<Leaf>>)
    ensures size == |data| && |sent| == |ranges|
    ensures forall i :: 0 <= i < |ranges| ==> SendsRange(data, ranges[i], sent[i])
  {
    size, sent := |data|, [];
    for i := 0 to |ranges|
      invariant |sent| == i
      invariant forall j :: 0 <= j < i ==> SendsRange(data, ranges[j], sent[j])
    {
      var (start, end) := Clip(ranges[i], size);
      LeavesSendRange(data, ranges[i]);
      var leaves := SendLeaves(data, start, end);
      sent := sent + [leaves];
    }
  }

  // ---------- receiving ----------

  predicate SliceOf(l: Leaf, data: seq<bv8>) {
    l.offset + |l.data| <= |data| && l.data == data[l.offset..l.offset + |l.data|]
  }

  predicate Covers(l: Leaf, k: nat) {
    l.offset <= k < l.offset + |l.data|
  }

  /** A leaf that does not fit is ignored. */
  function Written(buffer: seq<bv8>, item: Item): (b: seq<bv8>)
    ensures |b| == |buffer|
  {
    if item.ParentItem? || item.leaf.offset + |item.leaf.data| > |buffer| then buffer
    else buffer[..item.leaf.offset] + item.leaf.data + buffer[item.leaf.offset + |item.leaf.data|..]
  }

  function Filled(buffer: seq<bv8>, items: seq<Item>): (b: seq<bv8>)
    ensures |b| == |buffer|
  {
    if items == [] then buffer else Written(Filled(buffer, items[..|items| - 1]), items[|items| - 1])
  }

  predicate Fits(l: Leaf, size: nat) {
    l.offset + |l.data| <= size
  }

  lemma WrittenAt(buffer: seq<bv8>, it: Item, k: nat)
    requires k < |buffer|
    ensures Written(buffer, it)[k] ==
            if it.LeafItem? && Fits(it.leaf, |buffer|) && Covers(it.leaf, k) then it.leaf.data[k - it.leaf.offset]
            else buffer[k]
  {}

  lemma FilledOneMore(buffer: seq<bv8>, items: seq<Item>, it: Item)
    ensures Filled(buffer, items + [it]) == Written(Filled(buffer, items), it)
  {
    assert (items + [it])[..|items|] == items;
  }

  /** One more item: a leaf that fits sets the bytes it covers, and nothing else changes anything. */
  lemma FilledMore(buffer: seq<bv8>, items: seq<Item>, it: Item, k: nat)
    requires k < |buffer|
    ensures Filled(buffer, items + [it])[k] ==
            if it.LeafItem? && Fits(it.leaf, |buffer|) && Covers(it.leaf, k) then it.leaf.data[k - it.leaf.offset]
            else Filled(buffer, items)[k]
  {
    FilledOneMore(buffer, items, it);
    WrittenAt(Filled(buffer, items), it, k);
  }

  function Zeros(size: nat): seq<bv8> {
    seq(size, _ => 0)
  }

  /** Fills a zeroed buffer from what comes in, in any order, and stores it if it has the expected hash. */
  method ImportBao(expected: Hash, size: nat, items: seq<Item>) returns (r: Import)
    requires size > 0
    ensures r.TooLarge? <==> size > 1073741824
    ensures r == if size > MAX_IMPORT_SIZE then TooLarge
                 else if HashOf(Raw(Filled(Zeros(size), items))) != expected then HashMismatch
                 else Stored(Filled(Zeros(size), items))
  {
    if size > MAX_IMPORT_SIZE {
      return TooLarge;
    }
    var data := new bv8[size](_ => 0);
    assert data[..] == Zeros(size);
    for i := 0 to |items|
      invariant data[..] == Filled(Zeros(size), items[..i])
    {
      assert items[..i + 1][..i] == items[..i];
      if items[i].LeafItem? {
        WriteLeaf(data, items[i].leaf);
      }
    }
    assert items[..|items|] == items;
    if HashOf(Raw(data[..])) != expected {
      return HashMismatch;
    }
    return Stored(data[..]);
  }

  method WriteLeaf(data: array<bv8>, leaf: Leaf)
    modifies data
    ensures data[..] == Written(old(data[..]), LeafItem(leaf))
  {
    if leaf.offset + |leaf.data| <= data.Length {
      for i := 0 to |leaf.data|
        invariant forall k :: 0 <= k < data.Length ==>
                    data[k] == if leaf.offset <= k < leaf.offset + i then leaf.data[k - leaf.offset] else old(data[k])
      {
        data[leaf.offset + i] := leaf.data[i];
      }
    }
    forall k: nat | k < data.Length ensures data[..][k] == Written(old(data[..]), LeafItem(leaf))[k] {
      WrittenAt(old(data[..]), LeafItem(leaf), k);
    }
  }

  /** Only bytes of the blob are written, and every byte some leaf brings is right. */
  lemma {:induction false} FilledIsRight(data: seq<bv8>, buffer: seq<bv8>, items: seq<Item>, k: nat)
    requires |buffer| == |data| && k < |data|
    requires forall it :: it in items && it.LeafItem? ==> SliceOf(it.leaf, data)
    requires buffer[k] == data[k] || exists it :: it in items && it.LeafItem? && Covers(it.leaf, k)
    ensures Filled(buffer, items)[k] == data[k]
  {
    if items != [] {
      var front, last := items[..|items| - 1], items[|items| - 1];
      assert items == front + [last];
      if !(last.LeafItem? && Covers(last.leaf, k)) {
        FilledIsRight(data, buffer, front, k);
      }
    }
  }

  /** Transfer round trip: whatever arrives, in whatever order and however often, as long as it is the leaves the sender
      exports and each of them arrives, the receiver stores the sender's bytes. */
  lemma TransferRoundTrip(data: seq<bv8>, items: seq<Item>)
    requires 0 < |data| <= MAX_IMPORT_SIZE
    requires forall it :: it in items && it.LeafItem? ==> it.leaf in Leaves(data, 0, |data|)
    requires forall l :: l in Leaves(data, 0, |data|) ==> LeafItem(l) in items
    ensures Filled(Zeros(|data|), items) == data
  {
    LeavesJoinToStretch(data, 0, |data|);
    forall k: nat | k < |data| ensures Filled(Zeros(|data|), items)[k] == data[k] {
      LeavesCover(data, 0, |data|, k);
      var l :| l in Leaves(data, 0, |data|) && Covers(l, k);
      assert LeafItem(l) in items && LeafItem(l).LeafItem? && Covers(LeafItem(l).leaf, k);
      FilledIsRight(data, Zeros(|data|), items, k);
    }
  }

  /** Sending a blob and receiving what was sent stores the blob. */
  method SendAndReceive(data: seq<bv8>) returns (r: Import)
    requires 0 < |data| <= 1073741824
    ensures r == Stored(data)
  {
    var leaves := ExportBao(data);
    var items := seq(|leaves|, i requires 0 <= i < |leaves| => LeafItem(leaves[i]));
    assert forall l :: l in leaves ==> LeafItem(l) in items by {
      forall i | 0 <= i < |leaves| ensures LeafItem(leaves[i]) in items {
        assert items[i] == LeafItem(leaves[i]);
      }
    }
    TransferRoundTrip(data, items);
    r := ImportBao(HashOf(Raw(data)), |data|, items);
  }
}
