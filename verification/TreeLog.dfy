/** The tree and the operation log of a mount tell the same story. */
module TreeLog {
  import opened Content
  import opened PathOps
  import opened Trees
  import opened TreeUpdates
  import opened Mounts
  import opened Moves
  import opened MountRuns

  /** Adding, removing and making directories; failed attempts included. */
  ghost predicate Edits(actions: seq<Action>) {
    forall i :: 0 <= i < |actions| ==> actions[i].DoAdd? || actions[i].DoRemove? || actions[i].DoMkdir?
  }

  /** A new mount after a sequence of edits, with its store. */
  function EditRun(start: Outcome, actions: seq<Action>): Outcome
    requires forall i :: 0 <= i < |actions| ==> !actions[i].DoInit? && !actions[i].DoLoad?
  {
    if actions == [] then start else
    var before := EditRun(start, actions[..|actions| - 1]);
    Act(before.mount, before.store, actions[|actions| - 1])
  }

  function Started(id: Uuid, name: string, key: SecretKey, secret: Secret): Outcome {
    Outcome(Ok(()), Init(id, name, key, secret), InitPuts(id, name, key, secret))
  }

  /** The path shows a file with this content. */
  predicate ShowsFile(node: Node, p: Path, link: Link) {
    match Stat(node, p)
    case Some(File(l, _)) => l == link
    case _ => false
  }

  /** The newest operation at the path adds this content. */
  predicate AddWins(ops: Ops, p: Path, link: Link) {
    match Winner(ops, p)
    case Some(op) => op.opType.Add? && op.contentLink == Some(link)
    case None => false
  }

  /** Every file is there because of the newest operation at its path. */
  ghost predicate FilesHaveAdds(m: MountState) {
    forall p, link :: ShowsFile(m.entry, p, link) ==> AddWins(m.ops.ops, p, link)
  }

  /** And every path whose newest operation is an add shows that file. */
  ghost predicate AddsHaveFiles(m: MountState) {
    forall p, link :: AddWins(m.ops.ops, p, link) ==> ShowsFile(m.entry, p, link)
  }

  /** A recorded operation wins its path and changes no other. */
  lemma RecordedWins(m: MountState, opType: OpType, path: Path, link: Option<Link>, isDir: bool, p: Path)
    requires ClockCovers(m.ops)
    ensures Winner(Recorded(m, opType, path, link, isDir).ops, p)
            == if p == path then Some(PathOperation(NextId(m.ops, m.key.public), opType, path, link, isDir))
               else Winner(m.ops.ops, p)
  {
    var ops, id := Recorded(m, opType, path, link, isDir).ops, NextId(m.ops, m.key.public);
    if p == path {
      WinnerIs(ops, p, id);
    } else {
      assert id !in m.ops.ops;
      assert IdsAt(ops, p) == IdsAt(m.ops.ops, p);
    }
  }

  // ---------- one edit ----------

  /** What an edit does to the tree and to the log, when it succeeds. */
  ghost predicate EditShows(m: MountState, m': MountState, path: Path, opType: OpType, link: Option<Link>) {
    && (forall p :: p != path ==> Winner(m'.ops.ops, p) == Winner(m.ops.ops, p))
    && Winner(m'.ops.ops, path).Some? && Winner(m'.ops.ops, path).value.opType == opType
    && Winner(m'.ops.ops, path).value.contentLink == link
    && (Winner(m'.ops.ops, path).value.isDir <==>
          opType.Mkdir? || (opType.Remove? && Stat(m.entry, path) == Some(Folder)))
    && (opType.Remove? || NoFileAbove(m.entry, path))
    && match opType
       case Add => link.Some? && ShowsFile(m'.entry, path, link.value)
                   && forall p :: p != path ==> Stat(m'.entry, p) == AddedElsewhere(m.entry, path, p)
       case Remove => forall p :: Stat(m'.entry, p) == Removed(m.entry, path, p)
       case Mkdir => Stat(m.entry, path).None?
                     && forall p :: Stat(m'.entry, p) == if p <= path then Some(Folder) else Stat(m.entry, p)
       case Mv(_) => false
  }

  ghost predicate NoFileAbove(node: Node, path: Path) {
    forall p: Path :: p <= path && p != path ==> !IsFile(node, p)
  }

  lemma OpenWayHasNoFile(store: Store, node: Node, path: Path)
    requires Intact(store, node) && path != [] && !ThroughFile(node, Front(path))
    ensures NoFileAbove(node, path)
  {
    ThroughFileIs(store, node, Front(path));
    forall p: Path | p <= path && p != path ensures !IsFile(node, p) {
      assert p <= Front(path);
    }
  }

  /** After adding a file: nothing below it, folders above it, the rest as before. */
  function AddedElsewhere(node: Node, path: Path, p: Path): Option<Entry> {
    if path <= p then None else if p <= path then Some(Folder) else Stat(node, p)
  }

  lemma AddShows(m: MountState, store: Store, path: Path, bytes: seq<bv8>, own: Secret, spine: nat -> Secret)
    requires MountOk(store, m) && AddFile(m, store, path, bytes, own, spine).result.Ok?
    ensures EditShows(m, AddFile(m, store, path, bytes, own, spine).mount, path, Add, Some(SealFile(bytes, own)))
  {
    var link := SealFile(bytes, own);
    MoreStoreIntact(store, store + {link.hash}, m.entry);
    LinkRefinesUpdate(store + {link.hash}, m.entry, Data(link, own), path, spine);
    OpenWayHasNoFile(store, m.entry, path);
    forall p ensures Winner(AddFile(m, store, path, bytes, own, spine).mount.ops.ops, p)
                     == if p == path then Some(PathOperation(NextId(m.ops, m.key.public), Add, path, Some(link), false))
                        else Winner(m.ops.ops, p)
    {
      RecordedWins(m, Add, path, Some(link), false, p);
    }
  }

  lemma RemoveShows(m: MountState, store: Store, path: Path, own: Secret, spine: nat -> Secret)
    requires MountOk(store, m) && RemovePath(m, store, path, own, spine).result.Ok?
    ensures EditShows(m, RemovePath(m, store, path, own, spine).mount, path, Remove, None)
  {
    UnlinkRefinesRemoval(store, m.entry, path, own, spine);
    var isDir := Unlink(store, m.entry, path, own, spine).value.removed.Dir?;
    forall p ensures Winner(RemovePath(m, store, path, own, spine).mount.ops.ops, p)
                     == if p == path then Some(PathOperation(NextId(m.ops, m.key.public), Remove, path, None, isDir))
                        else Winner(m.ops.ops, p)
    {
      RecordedWins(m, Remove, path, None, isDir, p);
    }
  }

  /** A directory is made only where nothing is. */
  lemma MkdirOnNothing(m: MountState, store: Store, path: Path, own: Secret, spine: nat -> Secret)
    requires MountOk(store, m) && MakeDir(m, store, path, own, spine).result.Ok?
    ensures path != [] && Stat(m.entry, path).None?
    ensures forall rest :: rest != [] ==> Stat(m.entry, path + rest).None?
  {
    LookupLast(store, m.entry, path);
    WalkFinds(store, m.entry, Front(path));
    forall rest: Path | rest != [] ensures Stat(m.entry, path + rest).None? {
      UnderNonFolder(store, m.entry, path, rest);
    }
  }

  /** Exactly when a directory is made, and why not otherwise. */
  lemma MkdirExactlyWhen(m: MountState, store: Store, path: Path, own: Secret, spine: nat -> Secret)
    requires MountOk(store, m)
    ensures MakeDir(m, store, path, own, spine).result ==
            if path == [] then Err(RootError)
            else if ThroughFile(m.entry, Front(path)) then Err(CodecError)
            else if Stat(m.entry, path).Some? then Err(PathAlreadyExists)
            else Ok(())
  {
    if path != [] {
      LookupLast(store, m.entry, path);
      WalkFinds(store, m.entry, Front(path));
      var link := SealNode(EMPTY_NODE, own);
      MoreStoreIntact(store, store + {link.hash}, m.entry);
      LinkRefinesUpdate(store + {link.hash}, m.entry, Dir(link, own), path, spine);
    }
  }

  /** Exactly when a file is added, and why not otherwise. */
  lemma AddExactlyWhen(m: MountState, store: Store, path: Path, bytes: seq<bv8>, own: Secret, spine: nat -> Secret)
    requires MountOk(store, m)
    ensures var o := AddFile(m, store, path, bytes, own, spine);
            && o.result == (if path == [] then Err(Panicked)
                            else if ThroughFile(m.entry, Front(path)) then Err(PathNotNode)
                            else Ok(()))
            && (o.result.Ok? ==> Cat(o.store, o.mount.entry, path) == Ok(bytes))
  {
    if path != [] {
      var link := SealFile(bytes, own);
      MoreStoreIntact(store, store + {link.hash}, m.entry);
      LinkRefinesUpdate(store + {link.hash}, m.entry, Data(link, own), path, spine);
      if AddFile(m, store, path, bytes, own, spine).result.Ok? {
        AddKeepsMount(store, m, path, bytes, own, spine);
        var o := AddFile(m, store, path, bytes, own, spine);
        CatIsLookup(o.store, o.mount.entry, path);
      }
    }
  }

  lemma MkdirShows(m: MountState, store: Store, path: Path, own: Secret, spine: nat -> Secret)
    requires MountOk(store, m) && MakeDir(m, store, path, own, spine).result.Ok?
    ensures EditShows(m, MakeDir(m, store, path, own, spine).mount, path, Mkdir, None)
  {
    MkdirOnNothing(m, store, path, own, spine);
    var link := SealNode(EMPTY_NODE, own);
    var m' := MakeDir(m, store, path, own, spine).mount;
    MoreStoreIntact(store, store + {link.hash}, m.entry);
    LinkRefinesUpdate(store + {link.hash}, m.entry, Dir(link, own), path, spine);
    OpenWayHasNoFile(store, m.entry, path);
    forall p ensures Stat(m'.entry, p) == if p <= path then Some(Folder) else Stat(m.entry, p) {
      if path <= p && p != path {
        assert p == path + p[|path|..];
      }
    }
    forall p ensures Winner(m'.ops.ops, p)
                     == if p == path then Some(PathOperation(NextId(m.ops, m.key.public), Mkdir, path, None, true))
                        else Winner(m.ops.ops, p)
    {
      RecordedWins(m, Mkdir, path, None, true, p);
    }
  }

  // ---------- runs ----------

  lemma EditKeepsAdds(m: MountState, m': MountState, path: Path, opType: OpType, link: Option<Link>)
    requires FilesHaveAdds(m) && EditShows(m, m', path, opType, link)
    ensures FilesHaveAdds(m')
  {
    forall p, l | ShowsFile(m'.entry, p, l) ensures AddWins(m'.ops.ops, p, l) {
      if p != path {
        assert ShowsFile(m.entry, p, l);
      }
    }
  }

  /** A successful edit is one of the three; a failed one leaves the mount as it is. */
  lemma EditStep(m: MountState, store: Store, a: Action) returns (opType: OpType, link: Option<Link>)
    requires MountOk(store, m) && (a.DoAdd? || a.DoRemove? || a.DoMkdir?)
    ensures var o := Act(m, store, a);
            if o.result.Ok? then EditShows(m, o.mount, a.path, opType, link) else o.mount == m
    ensures opType == if a.DoAdd? then Add else if a.DoRemove? then Remove else Mkdir
  {
    opType, link := if a.DoAdd? then Add else if a.DoRemove? then Remove else Mkdir, None;
    if Act(m, store, a).result.Ok? {
      match a
      case DoAdd(_, path, bytes, own, spine) =>
        link := Some(SealFile(bytes, own));
        AddShows(m, store, path, bytes, own, spine);
      case DoRemove(_, path, own, spine) => RemoveShows(m, store, path, own, spine);
      case DoMkdir(_, path, own, spine) => MkdirShows(m, store, path, own, spine);
    }
  }

  lemma StartIsEmpty(id: Uuid, name: string, key: SecretKey, secret: Secret)
    ensures var s := Started(id, name, key, secret);
            MountOk(s.store, s.mount) && FilesHaveAdds(s.mount) && AddsHaveFiles(s.mount)
  {
    PinsCoverEveryRun([]);
    InitKeepsWorld(World(map[], {}), 0, id, name, key, secret);
    var w := World(map[0 := Init(id, name, key, secret)], {} + InitPuts(id, name, key, secret));
    assert w.mounts[0] == Started(id, name, key, secret).mount && w.store == Started(id, name, key, secret).store;
  }

  /** After any edits of a new mount, every file of the tree has as its winning operation an add of that very file. */
  lemma {:induction false} EveryFileHasItsAdd(start: Outcome, actions: seq<Action>)
    requires Edits(actions) && MountOk(start.store, start.mount) && FilesHaveAdds(start.mount)
    ensures var o := EditRun(start, actions); MountOk(o.store, o.mount) && FilesHaveAdds(o.mount)
  {
    if actions != [] {
      var front, last := actions[..|actions| - 1], actions[|actions| - 1];
      EveryFileHasItsAdd(start, front);
      var before := EditRun(start, front);
      var opType, link := EditStep(before.mount, before.store, last);
      TreeActionKeepsMount(before.mount, before.store, last);
      var after := Act(before.mount, before.store, last);
      if after.result.Ok? {
        EditKeepsAdds(before.mount, after.mount, last.path, opType, link);
      }
    }
  }

  ghost predicate NoFileBelow(node: Node, path: Path) {
    forall rest :: rest != [] ==> !IsFile(node, path + rest)
  }

  /** A file elsewhere stays unless it is below a path that is removed or overwritten. */
  lemma FileStays(m: MountState, m': MountState, store: Store, path: Path, opType: OpType, link: Option<Link>, p: Path)
    requires MountOk(store, m) && EditShows(m, m', path, opType, link) && p != path && IsFile(m.entry, p)
    requires opType.Mkdir? || NoFileBelow(m.entry, path)
    ensures Stat(m'.entry, p) == Stat(m.entry, p)
  {
    if path <= p {
      assert p == path + p[|path|..];
      if opType.Mkdir? {
        UnderNonFolder(store, m.entry, path, p[|path|..]);
      }
    }
  }

  lemma EditKeepsFiles(m: MountState, m': MountState, store: Store, path: Path, opType: OpType, link: Option<Link>)
    requires AddsHaveFiles(m) && EditShows(m, m', path, opType, link) && MountOk(store, m)
    requires opType.Mkdir? || NoFileBelow(m.entry, path)
    ensures AddsHaveFiles(m')
  {
    forall p, l | AddWins(m'.ops.ops, p, l) ensures ShowsFile(m'.entry, p, l) {
      if p != path {
        assert ShowsFile(m.entry, p, l);
        FileStays(m, m', store, path, opType, link, p);
      }
    }
  }

  /** A file that goes with the directory above it leaves its add as the winning operation. */
  lemma EditLosesFile(m: MountState, m': MountState, path: Path, opType: OpType, link: Option<Link>)
    requires FilesHaveAdds(m) && EditShows(m, m', path, opType, link) && !opType.Mkdir? && !NoFileBelow(m.entry, path)
    ensures !AddsHaveFiles(m')
  {
    var rest :| rest != [] && IsFile(m.entry, path + rest);
    var p := path + rest;
    var l := Stat(m.entry, p).value.link;
    assert ShowsFile(m.entry, p, l);
    assert AddWins(m'.ops.ops, p, l) && path <= p && p != path && Stat(m'.entry, p).None?;
    assert !ShowsFile(m'.entry, p, l);
  }

  /** No add or removal is aimed at a directory that has a file below it; the root is refused anyway. */
  ghost predicate SparesFiles(start: Outcome, actions: seq<Action>)
    requires Edits(actions)
  {
    actions == [] ||
    (SparesFiles(start, actions[..|actions| - 1]) &&
     var before, last := EditRun(start, actions[..|actions| - 1]), actions[|actions| - 1];
     last.DoMkdir? || last.path == [] || NoFileBelow(before.mount.entry, last.path))
  }

  /** At every moment of the run the paths won by an add are files. */
  ghost predicate AgreesThroughout(start: Outcome, actions: seq<Action>)
    requires Edits(actions)
  {
    AddsHaveFiles(EditRun(start, actions).mount) && (actions == [] || AgreesThroughout(start, actions[..|actions| - 1]))
  }

  lemma {:induction false} AgreesExactlyWhen(start: Outcome, actions: seq<Action>)
    requires Edits(actions) && MountOk(start.store, start.mount) && FilesHaveAdds(start.mount)
             && AddsHaveFiles(start.mount)
    ensures AgreesThroughout(start, actions) <==> SparesFiles(start, actions)
  {
    if actions != [] {
      var front, last := actions[..|actions| - 1], actions[|actions| - 1];
      AgreesExactlyWhen(start, front);
      EveryFileHasItsAdd(start, front);
      if AgreesThroughout(start, front) {
        var before := EditRun(start, front);
        AgreesNext(before.mount, before.store, last);
      }
    }
  }

  lemma AgreesNext(m: MountState, store: Store, a: Action)
    requires MountOk(store, m) && (a.DoAdd? || a.DoRemove? || a.DoMkdir?) && FilesHaveAdds(m) && AddsHaveFiles(m)
    ensures AddsHaveFiles(Act(m, store, a).mount) <==> a.DoMkdir? || a.path == [] || NoFileBelow(m.entry, a.path)
  {
    var opType, link := EditStep(m, store, a);
    var o := Act(m, store, a);
    EditSucceedsWhen(m, store, a);
    if o.result.Err? {
      RefusedHasNothingBelow(m, store, a);
    } else if a.DoMkdir? || NoFileBelow(m.entry, a.path) {
      EditKeepsFiles(m, o.mount, store, a.path, opType, link);
    } else {
      EditLosesFile(m, o.mount, a.path, opType, link);
    }
  }

  /** What an edit asks of the tree: nothing is done at the root, nothing below a file, only what exists is removed, and
      a directory is made only where nothing is. */
  predicate CanEdit(node: Node, a: Action)
    requires a.DoAdd? || a.DoRemove? || a.DoMkdir?
  {
    && a.path != []
    && !ThroughFile(node, Front(a.path))
    && (a.DoRemove? ==> Stat(node, a.path).Some?)
    && (a.DoMkdir? ==> Stat(node, a.path).None?)
  }

  lemma EditSucceedsWhen(m: MountState, store: Store, a: Action)
    requires MountOk(store, m) && (a.DoAdd? || a.DoRemove? || a.DoMkdir?)
    ensures Act(m, store, a).result.Ok? <==> CanEdit(m.entry, a)
  {
    match a
    case DoAdd(_, path, bytes, own, spine) => AddExactlyWhen(m, store, path, bytes, own, spine);
    case DoMkdir(_, path, own, spine) => MkdirExactlyWhen(m, store, path, own, spine);
    case DoRemove(_, path, own, spine) =>
      UnlinkRefinesRemoval(store, m.entry, path, own, spine);
      FoundNotThroughFile(store, m.entry, path);
  }

  lemma FoundNotThroughFile(store: Store, node: Node, path: Path)
    requires Intact(store, node)
    ensures path != [] && Lookup(node, path).Some? ==> !ThroughFile(node, Front(path))
  {
    if path != [] && Lookup(node, path).Some? {
      LookupLast(store, node, path);
      WalkFinds(store, node, Front(path));
    }
  }

  /** An add or a removal that is refused, other than at the root, has nothing below its path. */
  lemma RefusedHasNothingBelow(m: MountState, store: Store, a: Action)
    requires MountOk(store, m) && (a.DoAdd? || a.DoRemove? || a.DoMkdir?) && !CanEdit(m.entry, a)
    ensures a.DoMkdir? || a.path == [] || NoFileBelow(m.entry, a.path)
  {
    if !a.DoMkdir? && a.path != [] {
      if Stat(m.entry, a.path) == Some(Folder) {
        FolderAboveNotThroughFile(store, m.entry, a.path);
      }
      forall rest: Path | rest != [] ensures !IsFile(m.entry, a.path + rest) {
        UnderNonFolder(store, m.entry, a.path, rest);
      }
    }
  }

  // ---------- the files at the end of a run ----------

  /** The tree before the last step of a run. */
  function TreeBefore(start: Outcome, actions: seq<Action>): Node
    requires Edits(actions) && actions != []
  {
    EditRun(start, actions[..|actions| - 1]).mount.entry
  }

  /** The last successful edit of the path is an add. */
  predicate LastAdded(start: Outcome, actions: seq<Action>, p: Path)
    requires Edits(actions)
  {
    actions != [] &&
    var last := actions[|actions| - 1];
    if last.path == p && CanEdit(TreeBefore(start, actions), last) then last.DoAdd?
    else LastAdded(start, actions[..|actions| - 1], p)
  }

  /** Since the last successful edit of the path, a directory above it was removed or overwritten. */
  predicate TakenSince(start: Outcome, actions: seq<Action>, p: Path)
    requires Edits(actions)
  {
    actions != [] &&
    var last := actions[|actions| - 1];
    if last.path <= p && CanEdit(TreeBefore(start, actions), last) && (last.path == p || !last.DoMkdir?) then
      last.path != p
    else TakenSince(start, actions[..|actions| - 1], p)
  }

  /** One edit, at one path: a file is made by adding it, and taken away by an add or a removal at or above it. */
  lemma EditMakesFile(m: MountState, m': MountState, path: Path, opType: OpType, link: Option<Link>, p: Path)
    requires EditShows(m, m', path, opType, link)
    ensures IsFile(m'.entry, p) <==>
            if p == path then opType.Add?
            else IsFile(m.entry, p) && !(path <= p && !opType.Mkdir?)
  {
    if p != path && p <= path {
      assert !(path <= p);
    }
  }

  /** The files of the tree, by the history of edits alone: a path is a file exactly when its last edit added it and
      nothing above it was removed or overwritten since. */
  lemma {:induction false} FilesByHistory(start: Outcome, actions: seq<Action>, p: Path)
    requires Edits(actions) && MountOk(start.store, start.mount) && FilesHaveAdds(start.mount)
    requires !IsFile(start.mount.entry, p)
    ensures IsFile(EditRun(start, actions).mount.entry, p)
            <==> LastAdded(start, actions, p) && !TakenSince(start, actions, p)
  {
    if actions != [] {
      var front, last := actions[..|actions| - 1], actions[|actions| - 1];
      FilesByHistory(start, front, p);
      EveryFileHasItsAdd(start, front);
      var before := EditRun(start, front);
      var opType, link := EditStep(before.mount, before.store, last);
      EditSucceedsWhen(before.mount, before.store, last);
      if CanEdit(before.mount.entry, last) {
        EditMakesFile(before.mount, EditRun(start, actions).mount, last.path, opType, link, p);
      }
    }
  }

  predicate AddIsNewest(ops: Ops, p: Path) {
    match Winner(ops, p)
    case Some(op) => op.opType.Add? && op.contentLink.Some?
    case None => false
  }

  lemma EditChangesWinner(m: MountState, m': MountState, path: Path, opType: OpType, link: Option<Link>, p: Path)
    requires EditShows(m, m', path, opType, link)
    ensures AddIsNewest(m'.ops.ops, p) <==> if p == path then opType.Add? else AddIsNewest(m.ops.ops, p)
  {}

  /** The newest operation at a path, by the same history. */
  lemma {:induction false} AddWinsByHistory(start: Outcome, actions: seq<Action>, p: Path)
    requires Edits(actions) && MountOk(start.store, start.mount) && FilesHaveAdds(start.mount)
    requires Winner(start.mount.ops.ops, p).None?
    ensures LastAdded(start, actions, p) <==> AddIsNewest(EditRun(start, actions).mount.ops.ops, p)
  {
    if actions != [] {
      var front, last := actions[..|actions| - 1], actions[|actions| - 1];
      AddWinsByHistory(start, front, p);
      EveryFileHasItsAdd(start, front);
      var before := EditRun(start, front);
      var opType, link := EditStep(before.mount, before.store, last);
      EditSucceedsWhen(before.mount, before.store, last);
      if CanEdit(before.mount.entry, last) {
        EditChangesWinner(before.mount, EditRun(start, actions).mount, last.path, opType, link, p);
      }
    }
  }

  function TypeOf(a: Action): OpType
    requires a.DoAdd? || a.DoRemove? || a.DoMkdir?
  {
    if a.DoAdd? then Add else if a.DoRemove? then Remove else Mkdir
  }

  /** The last successful edit of the path. */
  function LastEdit(start: Outcome, actions: seq<Action>, p: Path): (a: Option<Action>)
    requires Edits(actions)
    ensures a.Some? ==> (a.value.DoAdd? || a.value.DoRemove? || a.value.DoMkdir?) && a.value.path == p
  {
    if actions == [] then None else
    var last := actions[|actions| - 1];
    if last.path == p && CanEdit(TreeBefore(start, actions), last) then Some(last)
    else LastEdit(start, actions[..|actions| - 1], p)
  }

  /** The newest operation at a path is that of its last successful edit. */
  ghost predicate WinnerIsLastEdit(start: Outcome, actions: seq<Action>, ops: Ops, p: Path)
    requires Edits(actions)
  {
    var w, a := Winner(ops, p), LastEdit(start, actions, p);
    (w.Some? <==> a.Some?) && (w.Some? ==> w.value.opType == TypeOf(a.value))
  }

  lemma {:induction false} WinnerByHistory(start: Outcome, actions: seq<Action>, p: Path)
    requires Edits(actions) && MountOk(start.store, start.mount) && FilesHaveAdds(start.mount)
    requires Winner(start.mount.ops.ops, p).None?
    ensures WinnerIsLastEdit(start, actions, EditRun(start, actions).mount.ops.ops, p)
  {
    if actions != [] {
      var front, last := actions[..|actions| - 1], actions[|actions| - 1];
      WinnerByHistory(start, front, p);
      EveryFileHasItsAdd(start, front);
      var before := EditRun(start, front);
      var opType, link := EditStep(before.mount, before.store, last);
      EditSucceedsWhen(before.mount, before.store, last);
    }
  }

  /** What a log shows at a path is what its winner says: nothing if it is a removal. */
  lemma ShowsWinner(ops: Ops, p: Path)
    ensures p in ResolveAll(ops) <==> Winner(ops, p).Some? && !Winner(ops, p).value.opType.Remove?
    ensures p in ResolveAll(ops) ==> ResolveAll(ops)[p] == Winner(ops, p).value
  {
    ResolvesExactly(ops, p);
    var ids := IdsAt(ops, p);
    if ids != {} {
      assert IsNewest(ops, p, Greatest(ids));
    }
  }

  /** The resolved state of a new mount after any edits: a path is in it exactly when its last successful edit is no
      removal, and every file of the tree is in it as an add of that file. */
  lemma ResolvedByHistory(id: Uuid, name: string, key: SecretKey, secret: Secret, actions: seq<Action>, p: Path)
    requires Edits(actions)
    ensures var start := Started(id, name, key, secret);
            var m := EditRun(start, actions).mount;
            var state, last := ResolveAll(m.ops.ops), LastEdit(start, actions, p);
            && (p in state <==> last.Some? && !last.value.DoRemove?)
            && (p in state ==> state[p].opType == TypeOf(last.value))
            && forall link :: ShowsFile(m.entry, p, link) ==>
                 p in state && state[p].opType.Add? && state[p].contentLink == Some(link)
  {
    var start := Started(id, name, key, secret);
    StartIsEmpty(id, name, key, secret);
    WinnerByHistory(start, actions, p);
    EveryFileHasItsAdd(start, actions);
    ShowsWinner(EditRun(start, actions).mount.ops.ops, p);
  }

  /** When the end of a run agrees, whatever happened on the way: exactly when no path whose last edit is an add had a
      directory above it removed or overwritten since. */
  lemma EndAgreesExactlyWhen(id: Uuid, name: string, key: SecretKey, secret: Secret, actions: seq<Action>)
    requires Edits(actions)
    ensures var start := Started(id, name, key, secret);
            AddsHaveFiles(EditRun(start, actions).mount)
            <==> forall p :: LastAdded(start, actions, p) ==> !TakenSince(start, actions, p)
  {
    var start := Started(id, name, key, secret);
    StartIsEmpty(id, name, key, secret);
    EndAgrees(start, actions);
  }

  lemma EndAgrees(start: Outcome, actions: seq<Action>)
    requires Edits(actions) && MountOk(start.store, start.mount) && FilesHaveAdds(start.mount)
    requires forall p :: !IsFile(start.mount.entry, p) && Winner(start.mount.ops.ops, p).None?
    ensures AddsHaveFiles(EditRun(start, actions).mount)
            <==> forall p :: LastAdded(start, actions, p) ==> !TakenSince(start, actions, p)
  {
    var m := EditRun(start, actions).mount;
    EveryFileHasItsAdd(start, actions);
    FilesAndAdds(m);
    if AddsHaveFiles(m) {
      forall p | LastAdded(start, actions, p) ensures !TakenSince(start, actions, p) {
        AddWinsByHistory(start, actions, p);
        FilesByHistory(start, actions, p);
      }
    } else {
      var p :| AddIsNewest(m.ops.ops, p) && !IsFile(m.entry, p);
      AddWinsByHistory(start, actions, p);
      FilesByHistory(start, actions, p);
    }
  }

  /** Tree and log agree exactly when every path won by an add is a file: the link is then the right one. */
  lemma FilesAndAdds(m: MountState)
    requires FilesHaveAdds(m)
    ensures AddsHaveFiles(m) <==> forall p :: AddIsNewest(m.ops.ops, p) ==> IsFile(m.entry, p)
  {
    forall p | AddIsNewest(m.ops.ops, p) ensures AddWins(m.ops.ops, p, Winner(m.ops.ops, p).value.contentLink.value) {}
    if forall p :: AddIsNewest(m.ops.ops, p) ==> IsFile(m.entry, p) {
      forall p, link | AddWins(m.ops.ops, p, link) ensures ShowsFile(m.entry, p, link) {
        assert AddIsNewest(m.ops.ops, p) && ShowsFile(m.entry, p, Stat(m.entry, p).value.link);
      }
    }
  }

  /** Tree and log agree. After any edits of a new mount every file has its add as the winning operation. The paths won
      by an add are the files, with their content, throughout the run exactly when no add or removal is aimed at a
      directory above a file. */
  lemma TreeAndLogAgree(id: Uuid, name: string, key: SecretKey, secret: Secret, actions: seq<Action>)
    requires Edits(actions)
    ensures var start := Started(id, name, key, secret);
            && (forall p, link :: ShowsFile(EditRun(start, actions).mount.entry, p, link) ==>
                  AddWins(EditRun(start, actions).mount.ops.ops, p, link))
            && (AgreesThroughout(start, actions) <==> SparesFiles(start, actions))
  {
    var start := Started(id, name, key, secret);
    StartIsEmpty(id, name, key, secret);
    EveryFileHasItsAdd(start, actions);
    AgreesExactlyWhen(start, actions);
  }

  /** A run that does: a file is added and the directory it is in is removed. */
  lemma RemovedFolderLeavesAdd(id: Uuid, name: string, key: SecretKey, secret: Secret, d: string, f: string,
                               bytes: seq<bv8>, own: Secret, spine: nat -> Secret)
    ensures var start := Started(id, name, key, secret);
            var added := AddFile(start.mount, start.store, [d, f], bytes, own, spine);
            var m := RemovePath(added.mount, added.store, [d], own, spine).mount;
            AddWins(m.ops.ops, [d, f], SealFile(bytes, own)) && Stat(m.entry, [d, f]).None?
  {
    var start := Started(id, name, key, secret);
    StartIsEmpty(id, name, key, secret);
    var link := SealFile(bytes, own);
    MoreStoreIntact(start.store, start.store + {link.hash}, EMPTY_NODE);
    LinkRefinesUpdate(start.store + {link.hash}, EMPTY_NODE, Data(link, own), [d, f], spine);
    AddShows(start.mount, start.store, [d, f], bytes, own, spine);
    AddKeepsMount(start.store, start.mount, [d, f], bytes, own, spine);
    var added := AddFile(start.mount, start.store, [d, f], bytes, own, spine);
    FolderThenRemoved(added.mount, added.store, [d], own, spine, [d, f]);
  }

  lemma FolderThenRemoved(m: MountState, store: Store, path: Path, own: Secret, spine: nat -> Secret, p: Path)
    requires MountOk(store, m) && path != [] && Stat(m.entry, path) == Some(Folder) && path <= p && p != path
    ensures var m' := RemovePath(m, store, path, own, spine).mount;
            Winner(m'.ops.ops, p) == Winner(m.ops.ops, p) && Stat(m'.entry, p).None?
  {
    UnlinkRefinesRemoval(store, m.entry, path, own, spine);
    RemoveShows(m, store, path, own, spine);
  }
}
