/** Two ways in which loading makes an id name two operations: a clock that starts again, and a key that is open
    twice. */
module Reloads {
  import opened Content
  import opened PathOps
  import opened Trees
  import opened Mounts
  import opened MountRuns
  import SaveLoad
  import TreeLog

  /** In an empty tree a file can be added at the top. */
  lemma AddAtTop(m: MountState, store: Store, name: string, bytes: seq<bv8>, own: Secret, spine: nat -> Secret)
    requires MountOk(store, m)
    ensures var o := AddFile(m, store, [name], bytes, own, spine);
            && o.result.Ok? && MountOk(o.store, o.mount)
            && o.mount.ops == Recorded(m, Add, [name], Some(SealFile(bytes, own)), false)
            && o.mount.key == m.key && o.mount.manifest == m.manifest
  {
    TreeLog.AddExactlyWhen(m, store, [name], bytes, own, spine);
    assert !ThroughFile(m.entry, Front([name]));
    AddKeepsMount(store, m, [name], bytes, own, spine);
  }

  /** A new bucket, a file, two saves, and a file again after loading the second version: both files are added under the
      first id of the peer. The second version has no operations, so that loading it sets the clock to 0. */
  lemma LoadReusesId(id: Uuid, name: string, key: SecretKey, secret: Secret, p: string, q: string, bytes: seq<bv8>,
                     own: Secret, spine: nat -> Secret, publish: bool, secret1: Secret, secret2: Secret)
    requires p != q
    ensures var start := TreeLog.Started(id, name, key, secret);
            var added := AddFile(start.mount, start.store, [p], bytes, own, spine);
            var once := Save(added.mount, added.store, publish, secret1);
            var twice := Save(once.mount, once.store, publish, secret2);
            var loaded := Load(twice.store, twice.mount.link, key);
            && added.result.Ok? && loaded.Ok?
            && var again := AddFile(loaded.value, twice.store, [q], bytes, own, spine);
            && again.result.Ok?
            && OpId(1, key.public) in added.mount.ops.ops && OpId(1, key.public) in again.mount.ops.ops
            && !Agree(added.mount.ops.ops, again.mount.ops.ops)
  {
    var start := TreeLog.Started(id, name, key, secret);
    TreeLog.StartIsEmpty(id, name, key, secret);
    AddAtTop(start.mount, start.store, p, bytes, own, spine);
    var added := AddFile(start.mount, start.store, [p], bytes, own, spine);
    SaveWritesVersion(added.store, added.mount, publish, secret1);
    var once := Save(added.mount, added.store, publish, secret1);
    ReloadsEmpty(once.mount, once.store, publish, secret2);
    var twice := Save(once.mount, once.store, publish, secret2);
    var loaded := Load(twice.store, twice.mount.link, key).value;
    AddAtTop(loaded, twice.store, q, bytes, own, spine);
  }

  /** A version saved without operations loads with the clock at 0, whatever the clock was. */
  lemma ReloadsEmpty(m: MountState, store: Store, publish: bool, secret: Secret)
    requires MountOk(store, m) && m.ops.ops == map[]
    requires m.key.public in m.manifest.shares && m.manifest.shares[m.key.public].role.Owner?
    ensures var o := Save(m, store, publish, secret);
            var r := Load(o.store, o.mount.link, m.key);
            r.Ok? && MountOk(o.store, r.value) && r.value.ops == EMPTY_LOG && r.value.key == m.key
  {
    SaveLoad.RoundTripByRole(m, store, publish, secret, m.key);
    SaveWritesVersion(store, m, publish, secret);
    var o := Save(m, store, publish, secret);
    LoadGivesMount(o.store, o.mount.link, m.key);
  }

  /** A version whose log has one operation, of timestamp 1, loads with the clock at 1. */
  lemma ReloadsOne(m: MountState, store: Store, publish: bool, secret: Secret, op: PathOperation)
    requires MountOk(store, m) && op.id.timestamp == 1 && m.ops == Log(map[op.id := op], 1)
    requires m.key.public in m.manifest.shares && m.manifest.shares[m.key.public].role.Owner?
    ensures var o := Save(m, store, publish, secret);
            var r := Load(o.store, o.mount.link, m.key);
            r.Ok? && MountOk(o.store, r.value) && r.value.ops == m.ops && r.value.key == m.key
  {
    SaveLoad.RoundTripByRole(m, store, publish, secret, m.key);
    SaveWritesVersion(store, m, publish, secret);
    var o := Save(m, store, publish, secret);
    LoadGivesMount(o.store, o.mount.link, m.key);
    assert Greatest(m.ops.ops.Keys) in m.ops.ops;
  }

  /** A new bucket, a file, a save, and the version loaded again with the same key while the first mount stays open. The
      clock of the version has reached everything that was issued, and yet the next files of the two mounts are added
      under one id. */
  lemma TwoMountsShareId(id: Uuid, name: string, key: SecretKey, secret: Secret, p: string, q: string, r: string,
                         bytes: seq<bv8>, own: Secret, spine: nat -> Secret, publish: bool, secret1: Secret)
    requires q != r
    ensures var start := TreeLog.Started(id, name, key, secret);
            var added := AddFile(start.mount, start.store, [p], bytes, own, spine);
            var saved := Save(added.mount, added.store, publish, secret1);
            var loaded := Load(saved.store, saved.mount.link, key);
            && added.result.Ok? && loaded.Ok? && loaded.value.ops.clock == saved.mount.ops.clock == 1
            && var first := AddFile(saved.mount, saved.store, [q], bytes, own, spine);
            var second := AddFile(loaded.value, first.store, [r], bytes, own, spine);
            && first.result.Ok? && second.result.Ok?
            && OpId(2, key.public) in first.mount.ops.ops && OpId(2, key.public) in second.mount.ops.ops
            && !Agree(first.mount.ops.ops, second.mount.ops.ops)
  {
    var start := TreeLog.Started(id, name, key, secret);
    TreeLog.StartIsEmpty(id, name, key, secret);
    AddAtTop(start.mount, start.store, p, bytes, own, spine);
    var added := AddFile(start.mount, start.store, [p], bytes, own, spine);
    SaveWritesVersion(added.store, added.mount, publish, secret1);
    ReloadsOne(added.mount, added.store, publish, secret1,
               PathOperation(OpId(1, key.public), Add, [p], Some(SealFile(bytes, own)), false));
    var saved := Save(added.mount, added.store, publish, secret1);
    var loaded := Load(saved.store, saved.mount.link, key).value;
    BothRecord(saved.mount, loaded, saved.store, q, r, bytes, own, spine);
  }

  /** Two mounts of one key with one clock add files under one id. */
  lemma BothRecord(m: MountState, l: MountState, store: Store, q: string, r: string, bytes: seq<bv8>, own: Secret,
                   spine: nat -> Secret)
    requires MountOk(store, m) && MountOk(store, l) && m.key == l.key && m.ops.clock == l.ops.clock && q != r
    ensures var first := AddFile(m, store, [q], bytes, own, spine);
            var second := AddFile(l, first.store, [r], bytes, own, spine);
            && first.result.Ok? && second.result.Ok?
            && NextId(m.ops, m.key.public) in first.mount.ops.ops && NextId(m.ops, m.key.public) in second.mount.ops.ops
            && !Agree(first.mount.ops.ops, second.mount.ops.ops)
  {
    AddAtTop(m, store, q, bytes, own, spine);
    AddKeepsMount(store, m, [q], bytes, own, spine);
    var first := AddFile(m, store, [q], bytes, own, spine);
    MountStays(store, first.store, l);
    AddAtTop(l, first.store, r, bytes, own, spine);
  }
}
