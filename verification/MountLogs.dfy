/** The operation logs of the mounts of a bucket, in any run of mounts, run as replicated logs do. */
module MountLogs {
  import opened Content
  import opened PathOps
  import opened Trees
  import opened Mounts
  import opened MountRuns
  import TreeUpdates
  import R = Replication

  /** The operations of a version. */
  function OpsOf(v: Manifest): Ops {
    if v.opsLog.None? then map[] else
    var blob := v.opsLog.value.hash.blob;
    if blob.Sealed? && blob.plain.OpsPlain? then blob.plain.ops else map[]
  }

  /** The live logs of the mounts of a bucket, each with its key. */
  function Lives(mounts: map<nat, MountState>, id: Uuid): map<nat, R.Live> {
    map i | i in mounts && mounts[i].manifest.id == id :: R.Live(mounts[i].key.public, mounts[i].ops)
  }

  /** The logs of the stored versions of a bucket. */
  function VersionLogs(store: Store, id: Uuid): set<Ops> {
    set h | h in store && h.blob.ManifestBlob? && h.blob.manifest.id == id :: OpsOf(h.blob.manifest)
  }

  ghost predicate Shows(w: World, id: Uuid, s: R.System) {
    s.mounts == Lives(w.mounts, id) && s.saved == {map[]} + VersionLogs(w.store, id)
  }

  /** At most one step. */
  ghost predicate StepOrStay(s: R.System, t: R.System) {
    s == t || exists a :: R.Enabled(s, a) && t == R.Next(s, a)
  }

  /** At most two: a mount that is opened in the place of another closes that one first. */
  ghost predicate Moves(s: R.System, t: R.System) {
    exists mid :: StepOrStay(s, mid) && StepOrStay(mid, t)
  }

  // ---------- one mount ----------

  /** An edit records one operation or none. */
  lemma EditRecords(m: MountState, store: Store, a: Action) returns (b: Option<R.Action>)
    requires !a.DoInit? && !a.DoLoad? && !a.DoSave?
    ensures var m' := Act(m, store, a).mount;
            && m'.key == m.key && m'.manifest.id == m.manifest.id
            && (b.None? ==> m'.ops == m.ops)
            && (b.Some? ==>
                  && b.value.DoRecord? && b.value.i == a.i
                  && m'.ops == Record(m.ops, m.key.public, b.value.opType, b.value.path, b.value.link, b.value.isDir))
  {
    b := None;
    if Act(m, store, a).result.Ok? {
      match a
      case DoAdd(i, path, bytes, own, _) => b := Some(R.DoRecord(i, Add, path, Some(SealFile(bytes, own)), false));
      case DoRemove(i, path, own, spine) => b := RemoveRecords(m, store, i, path, own, spine);
      case DoMkdir(i, path, _, _) => b := Some(R.DoRecord(i, Mkdir, path, None, true));
      case DoMove(i, from, to, own, spine, spineIn) =>
        b := Some(R.DoRecord(i, Mv(from), to, None, Get(store, m.entry, from).value.Dir?));
      case DoAddOwner(_, _) =>
      case DoAddMirror(_, _) =>
    }
  }

  lemma RemoveRecords(m: MountState, store: Store, i: nat, path: Path, own: Secret, spine: nat -> Secret)
    returns (b: Option<R.Action>)
    requires RemovePath(m, store, path, own, spine).result.Ok?
    ensures b.Some? && b.value.DoRecord? && b.value.i == i
    ensures RemovePath(m, store, path, own, spine).mount.ops
            == Record(m.ops, m.key.public, b.value.opType, b.value.path, b.value.link, b.value.isDir)
  {
    var isDir := TreeUpdates.Unlink(store, m.entry, path, own, spine).value.removed.Dir?;
    b := Some(R.DoRecord(i, Remove, path, None, isDir));
  }

  // ---------- the mounts of a bucket ----------

  lemma LivesReplaced(mounts: map<nat, MountState>, id: Uuid, i: nat, m: MountState)
    ensures Lives(mounts[i := m], id)
            == if m.manifest.id == id then Lives(mounts, id)[i := R.Live(m.key.public, m.ops)]
               else Lives(mounts, id) - {i}
  {}

  lemma SameVersionLogs(store: Store, more: Store, id: Uuid)
    requires store <= more && NoNewVersions(store, more)
    ensures VersionLogs(more, id) == VersionLogs(store, id)
  {
    forall h | h in more && h.blob.ManifestBlob? ensures h in store {
      assert h == HashOf(ManifestBlob(h.blob.manifest));
    }
  }

  /** One version more. */
  lemma MoreVersionLogs(store: Store, more: Store, id: Uuid, v: Manifest)
    requires store <= more && HashOf(ManifestBlob(v)) in more
    requires forall u :: HashOf(ManifestBlob(u)) in more && HashOf(ManifestBlob(u)) !in store ==> u == v
    ensures VersionLogs(more, id) == VersionLogs(store, id) + if v.id == id then {OpsOf(v)} else {}
  {
    forall h | h in more && h.blob.ManifestBlob? && h !in store ensures h.blob.manifest == v {
      assert h == HashOf(ManifestBlob(h.blob.manifest));
    }
    var logs := VersionLogs(store, id) + if v.id == id then {OpsOf(v)} else {};
    forall ops ensures ops in VersionLogs(more, id) <==> ops in logs {
      if ops in VersionLogs(more, id) {
        var h :| h in more && h.blob.ManifestBlob? && h.blob.manifest.id == id && ops == OpsOf(h.blob.manifest);
        assert h in store || h.blob.manifest == v;
      }
      if v.id == id && ops == OpsOf(v) {
        assert HashOf(ManifestBlob(v)).blob.manifest == v;
      }
    }
  }

  // ---------- actions ----------

  /** A mount that records, or does not. */
  lemma LiveRecords(mounts: map<nat, MountState>, id: Uuid, s: R.System, i: nat, m: MountState, b: Option<R.Action>)
    returns (t: R.System)
    requires s.mounts == Lives(mounts, id) && i in mounts
    requires m.key == mounts[i].key && m.manifest.id == mounts[i].manifest.id && (b.None? ==> m.ops == mounts[i].ops)
    requires b.Some? ==>
               && b.value.DoRecord? && b.value.i == i
               && m.ops == Record(mounts[i].ops, m.key.public, b.value.opType, b.value.path, b.value.link,
                                  b.value.isDir)
    ensures StepOrStay(s, t) && t.mounts == Lives(mounts[i := m], id) && t.saved == s.saved
  {
    LivesReplaced(mounts, id, i, m);
    t := s;
    if m.manifest.id == id && b.Some? {
      assert i in s.mounts && R.Enabled(s, b.value);
      t := R.Next(s, b.value);
    }
  }

  lemma EditShows(w: World, id: Uuid, s: R.System, a: Action) returns (t: R.System)
    requires WorldOk(w) && Shows(w, id, s) && a.i in w.mounts && !a.DoInit? && !a.DoLoad? && !a.DoSave?
    ensures StepOrStay(s, t) && Shows(Put(w, a.i, Act(w.mounts[a.i], w.store, a)), id, t)
  {
    var m, o := w.mounts[a.i], Act(w.mounts[a.i], w.store, a);
    TreeActionKeepsMount(m, w.store, a);
    SameVersionLogs(w.store, o.store, id);
    var b := EditRecords(m, w.store, a);
    t := LiveRecords(w.mounts, id, s, a.i, o.mount, b);
  }

  lemma SavedOps(m: MountState, publish: bool, secret: Secret)
    ensures OpsOf(SavedManifest(m, publish, secret)) == m.ops.ops
  {}

  /** A mount that saves. */
  lemma LiveSaves(mounts: map<nat, MountState>, id: Uuid, s: R.System, i: nat, m: MountState) returns (t: R.System)
    requires s.mounts == Lives(mounts, id) && i in mounts
    requires m.key == mounts[i].key && m.manifest.id == mounts[i].manifest.id && m.ops == Cleared(mounts[i].ops)
    ensures StepOrStay(s, t) && t.mounts == Lives(mounts[i := m], id)
    ensures t.saved == s.saved + if m.manifest.id == id then {mounts[i].ops.ops} else {}
  {
    LivesReplaced(mounts, id, i, m);
    t := s;
    if m.manifest.id == id {
      assert i in s.mounts && R.Enabled(s, R.DoSave(i));
      t := R.Next(s, R.DoSave(i));
    }
  }

  lemma SaveVersionLogs(store: Store, m: MountState, id: Uuid, publish: bool, secret: Secret)
    ensures VersionLogs(Save(m, store, publish, secret).store, id)
            == VersionLogs(store, id) + if m.manifest.id == id then {m.ops.ops} else {}
  {
    var more, v := Save(m, store, publish, secret).store, SavedManifest(m, publish, secret);
    forall u | HashOf(ManifestBlob(u)) in more && HashOf(ManifestBlob(u)) !in store ensures u == v {
      SaveWritesOneVersion(store, m, publish, secret, u);
    }
    MoreVersionLogs(store, more, id, v);
    SavedOps(m, publish, secret);
  }

  lemma SaveShows(w: World, id: Uuid, s: R.System, i: nat, publish: bool, secret: Secret) returns (t: R.System)
    requires Shows(w, id, s) && i in w.mounts
    ensures StepOrStay(s, t) && Shows(Put(w, i, Save(w.mounts[i], w.store, publish, secret)), id, t)
  {
    SaveVersionLogs(w.store, w.mounts[i], id, publish, secret);
    t := LiveSaves(w.mounts, id, s, i, Save(w.mounts[i], w.store, publish, secret).mount);
  }

  /** Opening a mount in the place of another: that one is closed, and a log that is stored is opened. */
  lemma OpenShows(w: World, id: Uuid, s: R.System, i: nat, m: MountState) returns (t: R.System)
    requires Shows(w, id, s) && (m.manifest.id == id ==> m.ops.ops in s.saved && m.ops == Rebuilt(m.ops.ops))
    ensures Moves(s, t) && t.mounts == Lives(w.mounts[i := m], id) && t.saved == s.saved
  {
    LivesReplaced(w.mounts, id, i, m);
    var mid := if i in s.mounts then R.Next(s, R.DoClose(i)) else s;
    assert StepOrStay(s, mid) by {
      assert i in s.mounts ==> R.Enabled(s, R.DoClose(i));
    }
    t := mid;
    if m.manifest.id == id {
      var open := R.DoOpen(i, m.key.public, m.ops.ops);
      assert R.Enabled(mid, open);
      t := R.Next(mid, open);
    }
    assert StepOrStay(mid, t);
  }

  lemma InitShows(w: World, id: Uuid, s: R.System, a: Action) returns (t: R.System)
    requires Shows(w, id, s) && a.DoInit?
    ensures Moves(s, t) && Shows(Next(w, a), id, t)
  {
    var m, v := Init(a.id, a.name, a.key, a.secret), InitialManifest(a.id, a.name, a.key, a.secret);
    t := OpenShows(w, id, s, a.i, m);
    MoreVersionLogs(w.store, w.store + InitPuts(a.id, a.name, a.key, a.secret), id, v);
  }

  lemma LoadShows(w: World, id: Uuid, s: R.System, a: Action) returns (t: R.System)
    requires Shows(w, id, s) && a.DoLoad?
    ensures Moves(s, t) && Shows(Next(w, a), id, t)
  {
    var r := Load(w.store, a.link, a.key);
    if r.Ok? {
      assert OpsOf(a.link.hash.blob.manifest) == r.value.ops.ops;
      t := OpenShows(w, id, s, a.i, r.value);
    } else {
      t := s;
      assert StepOrStay(s, s);
    }
  }

  lemma StepMoves(s: R.System, t: R.System)
    requires StepOrStay(s, t)
    ensures Moves(s, t)
  {
    assert StepOrStay(t, t);
  }

  lemma ActShows(w: World, id: Uuid, s: R.System, a: Action) returns (t: R.System)
    requires WorldOk(w) && Shows(w, id, s) && !a.DoInit? && !a.DoLoad?
    ensures StepOrStay(s, t) && Shows(Next(w, a), id, t)
  {
    t := s;
    if a.i in w.mounts {
      if a.DoSave? {
        t := SaveShows(w, id, s, a.i, a.publish, a.secret);
      } else {
        t := EditShows(w, id, s, a);
      }
    }
  }

  /** Every action on mounts is at most two steps of the replicated logs of each bucket. */
  lemma NextShows(w: World, id: Uuid, s: R.System, a: Action) returns (t: R.System)
    requires WorldOk(w) && Shows(w, id, s)
    ensures Moves(s, t) && Shows(Next(w, a), id, t)
  {
    if a.DoInit? {
      t := InitShows(w, id, s, a);
    } else if a.DoLoad? {
      t := LoadShows(w, id, s, a);
    } else {
      t := ActShows(w, id, s, a);
      StepMoves(s, t);
    }
  }

  // ---------- runs ----------

  lemma OneStepLonger(states: seq<R.System>, acts: seq<R.Action>, t: R.System)
    returns (longer: seq<R.System>, more: seq<R.Action>)
    requires R.Run(states, acts) && StepOrStay(states[|acts|], t)
    ensures R.Run(longer, more) && longer[|more|] == t
  {
    longer, more := states, acts;
    if states[|acts|] != t {
      var a :| R.Enabled(states[|acts|], a) && t == R.Next(states[|acts|], a);
      R.OneMoreStep(states, acts, a);
      longer, more := states + [t], acts + [a];
    }
  }

  lemma MovesLonger(states: seq<R.System>, acts: seq<R.Action>, t: R.System)
    returns (longer: seq<R.System>, more: seq<R.Action>)
    requires R.Run(states, acts) && Moves(states[|acts|], t)
    ensures R.Run(longer, more) && longer[|more|] == t
  {
    var mid :| StepOrStay(states[|acts|], mid) && StepOrStay(mid, t);
    longer, more := OneStepLonger(states, acts, mid);
    longer, more := OneStepLonger(longer, more, t);
  }

  /** Every run of mounts is, bucket by bucket, a run of replicated logs that ends with the logs of the open mounts and
      of the stored versions; so what holds of every such run holds of the mounts. */
  lemma {:induction false} MountsRunAsReplicas(actions: seq<Action>, id: Uuid)
    returns (states: seq<R.System>, acts: seq<R.Action>)
    ensures R.Run(states, acts) && Shows(RunOf(actions), id, states[|acts|])
  {
    if actions == [] {
      states, acts := [R.System(map[], {map[]}, map[])], [];
    } else {
      var front, last := actions[..|actions| - 1], actions[|actions| - 1];
      states, acts := MountsRunAsReplicas(front, id);
      PinsCoverEveryRun(front);
      var t := NextShows(RunOf(front), id, states[|acts|], last);
      states, acts := MovesLonger(states, acts, t);
    }
  }
}
