/** The forked version log of the buckets a peer knows: five maps kept in step by one append. */
module BucketLog {
  import opened Content

  /** Several links at one height are forks. */
  datatype LogState = LogState(
    entries: map<Uuid, map<nat, seq<Link>>>,
    maxHeights: map<Uuid, nat>,
    linkIndex: map<Uuid, map<Link, seq<nat>>>,
    names: map<Uuid, string>,
    published: map<Uuid, map<Link, bool>>)

  const EMPTY_STATE := LogState(map[], map[], map[], map[], map[])

  datatype Entry = Entry(id: Uuid, name: string, current: Link, previous: Option<Link>, height: nat, published: bool)

  datatype AppendResult = Appended | Conflict | InvalidAppend

  // ---------- what a log answers ----------

  function At<K, V>(m: map<K, V>, k: K, default: V): V {
    if k in m then m[k] else default
  }

  predicate Exists(s: LogState, id: Uuid) {
    id in s.entries
  }

  function Bucket(s: LogState, id: Uuid): map<nat, seq<Link>> {
    if id in s.entries then s.entries[id] else map[]
  }

  function Heads(s: LogState, id: Uuid, height: nat): seq<Link> {
    At(Bucket(s, id), height, [])
  }

  function Height(s: LogState, id: Uuid): Option<nat> {
    if id in s.maxHeights then Some(s.maxHeights[id]) else None
  }

  function Has(s: LogState, id: Uuid, link: Link): seq<nat> {
    At(At(s.linkIndex, id, map[]), link, [])
  }

  predicate Flagged(s: LogState, id: Uuid, link: Link) {
    At(At(s.published, id, map[]), link, false)
  }

  /** Links are ordered by their identifier, read as a number. */
  ghost predicate Injective(rank: Link -> nat) {
    forall a, b :: rank(a) == rank(b) ==> a == b
  }

  function MaxLink(links: seq<Link>, rank: Link -> nat): (m: Link)
    requires links != []
    ensures m in links && forall l :: l in links ==> rank(l) <= rank(m)
  {
    if |links| == 1 then links[0] else
    var rest := MaxLink(links[..|links| - 1], rank);
    var last := links[|links| - 1];
    if rank(rest) <= rank(last) then last else rest
  }

  /** The canonical head: the greatest link at the asked height, by default the greatest height. A bucket without a
      greatest height has no head, whatever height is asked for. */
  function Head(s: LogState, id: Uuid, at: Option<nat>, rank: Link -> nat): Option<(Link, nat)> {
    match Height(s, id)
    case None => None
    case Some(max) =>
      var height := if at.Some? then at.value else max;
      var heads := Heads(s, id, height);
      if heads == [] then None else Some((MaxLink(heads, rank), height))
  }

  // ---------- append ----------

  /** A link may appear once at a height; its predecessor must be one height below, and only genesis has none. */
  function Validate(s: LogState, e: Entry): AppendResult {
    if e.current in Heads(s, e.id, e.height) then Conflict
    else match e.previous
      case Some(previous) =>
        if e.height > 0 && previous in Heads(s, e.id, e.height - 1) then Appended else InvalidAppend
      case None =>
        if e.height == 0 then Appended else InvalidAppend
  }

  /** What even a rejected append writes: the name, and an empty bucket. */
  function Touched(s: LogState, e: Entry): LogState {
    s.(names := s.names[e.id := e.name], entries := s.entries[e.id := Bucket(s, e.id)])
  }

  /** What an accepted append adds to that. */
  function Accepted(s: LogState, e: Entry): LogState {
    var bucket: map<nat, seq<Link>> := Bucket(s, e.id)[e.height := Heads(s, e.id, e.height) + [e.current]];
    s.(entries := s.entries[e.id := bucket],
       maxHeights := if e.id !in s.maxHeights || e.height > s.maxHeights[e.id] then s.maxHeights[e.id := e.height]
                     else s.maxHeights,
       linkIndex := s.linkIndex[
                      e.id := At(s.linkIndex, e.id, map[])[e.current := Has(s, e.id, e.current) + [e.height]]],
       published := s.published[e.id := At(s.published, e.id, map[])[e.current := e.published]])
  }

  function Append(s: LogState, e: Entry): LogState {
    if Validate(s, e).Appended? then Accepted(Touched(s, e), e) else Touched(s, e)
  }

  function AppendAll(s: LogState, es: seq<Entry>): LogState {
    if es == [] then s else Append(AppendAll(s, es[..|es| - 1]), es[|es| - 1])
  }

  /** What an accepted append changes in the entries, and nothing else. */
  lemma AppendHeads(s: LogState, e: Entry)
    requires Validate(s, e).Appended?
    ensures var t := Append(s, e);
            && (forall id :: Exists(t, id) <==> Exists(s, id) || id == e.id)
            && t.names == s.names[e.id := e.name]
            && (forall id, h :: Heads(t, id, h)
                  == if id == e.id && h == e.height then Heads(s, id, h) + [e.current] else Heads(s, id, h))
            && (forall id :: id != e.id ==> Height(t, id) == Height(s, id))
            && Height(t, e.id).Some?
            && Height(t, e.id).value == if Height(s, e.id).Some? && e.height <= Height(s, e.id).value
                                        then Height(s, e.id).value else e.height
  {}

  /** What it changes in the index and in the flags. */
  lemma AppendIndex(s: LogState, e: Entry)
    requires Validate(s, e).Appended?
    ensures var t := Append(s, e);
            && (forall id, l :: Has(t, id, l)
                  == if id == e.id && l == e.current then Has(s, id, l) + [e.height] else Has(s, id, l))
            && (forall id, l :: Flagged(t, id, l)
                  == if id == e.id && l == e.current then e.published else Flagged(s, id, l))
  {}

  lemma HeadsOneMore(s: LogState, e: Entry, id: Uuid, h: nat, l: Link)
    requires Validate(s, e).Appended?
    ensures l in Heads(Append(s, e), id, h) <==> l in Heads(s, id, h) || (e.id == id && e.height == h && e.current == l)
  {
    AppendHeads(s, e);
  }

  /** A rejected append changes no answer but the existence of the bucket. */
  lemma RejectedAppendIsSilent(s: LogState, e: Entry)
    requires !Validate(s, e).Appended?
    ensures var t := Append(s, e);
            && (forall id, h :: Heads(t, id, h) == Heads(s, id, h))
            && (forall id, l :: Has(t, id, l) == Has(s, id, l))
            && (forall id, l :: Flagged(t, id, l) == Flagged(s, id, l))
            && (forall id :: Height(t, id) == Height(s, id))
            && (forall id :: Exists(t, id) <==> Exists(s, id) || id == e.id)
            && t.names == s.names[e.id := e.name]
  {}

  // ---------- the invariant ----------

  ghost predicate NoDuplicates<T>(s: seq<T>) {
    forall i, j :: 0 <= i < j < |s| ==> s[i] != s[j]
  }

  /** The index is the exact inverse of the entries. */
  ghost predicate IndexInverse(s: LogState) {
    forall id, l, h :: h in Has(s, id, l) <==> l in Heads(s, id, h)
  }

  /** Neither lists anything twice. */
  ghost predicate ListedOnce(s: LogState) {
    && (forall id, h :: NoDuplicates(Heads(s, id, h)))
    && (forall id, l :: NoDuplicates(Has(s, id, l)))
  }

  /** The stored height is the greatest occupied one, and every height below it is occupied. */
  ghost predicate HeightsFilled(s: LogState) {
    forall id, h: nat :: Heads(s, id, h) != [] <==> Height(s, id).Some? && h <= Height(s, id).value
  }

  ghost predicate Valid(s: LogState) {
    IndexInverse(s) && HeightsFilled(s)
  }

  lemma AppendKeepsIndex(s: LogState, e: Entry)
    requires IndexInverse(s) && Validate(s, e).Appended?
    ensures IndexInverse(Append(s, e))
  {
    AppendIndex(s, e);
    forall id, l, h: nat ensures h in Has(Append(s, e), id, l) <==> l in Heads(Append(s, e), id, h) {
      HeadsOneMore(s, e, id, h, l);
    }
  }

  lemma OneMoreNoDuplicates<T>(s: seq<T>, x: T)
    requires NoDuplicates(s) && x !in s
    ensures NoDuplicates(s + [x])
  {}

  lemma AppendKeepsListedOnce(s: LogState, e: Entry)
    requires IndexInverse(s) && ListedOnce(s) && Validate(s, e).Appended?
    ensures ListedOnce(Append(s, e))
  {
    AppendHeads(s, e);
    AppendIndex(s, e);
    assert e.height !in Has(s, e.id, e.current);
    OneMoreNoDuplicates(Heads(s, e.id, e.height), e.current);
    OneMoreNoDuplicates(Has(s, e.id, e.current), e.height);
  }

  lemma AppendKeepsHeights(s: LogState, e: Entry)
    requires HeightsFilled(s) && Validate(s, e).Appended?
    ensures HeightsFilled(Append(s, e))
  {
    AppendHeads(s, e);
    assert e.height > 0 ==> Heads(s, e.id, e.height - 1) != [];
  }

  lemma AppendKeepsValid(s: LogState, e: Entry)
    requires Valid(s)
    ensures Valid(Append(s, e))
  {
    if Validate(s, e).Appended? {
      AppendKeepsIndex(s, e);
      AppendKeepsHeights(s, e);
    } else {
      RejectedAppendIsSilent(s, e);
    }
  }

  /** After any sequence of appends, accepted or not: `has` is the inverse of `heads`, nothing is listed twice, the
      stored maximum is the true one and every height up to it is occupied. */
  lemma {:induction false} ValidAfterAnyAppends(es: seq<Entry>)
    ensures Valid(AppendAll(EMPTY_STATE, es)) && ListedOnce(AppendAll(EMPTY_STATE, es))
  {
    if es != [] {
      var before, e := AppendAll(EMPTY_STATE, es[..|es| - 1]), es[|es| - 1];
      ValidAfterAnyAppends(es[..|es| - 1]);
      AppendKeepsValid(before, e);
      if Validate(before, e).Appended? {
        AppendKeepsListedOnce(before, e);
      } else {
        RejectedAppendIsSilent(before, e);
      }
    }
  }

  // ---------- the canonical head ----------

  /** Height first, then the link. */
  ghost predicate HeadAtMost(a: Option<(Link, nat)>, b: Option<(Link, nat)>, rank: Link -> nat) {
    a.None? || (b.Some? && (a.value.1 < b.value.1 || (a.value.1 == b.value.1 && rank(a.value.0) <= rank(b.value.0))))
  }

  lemma HeadOnAppend(s: LogState, e: Entry, id: Uuid, rank: Link -> nat)
    requires Valid(s)
    ensures HeadAtMost(Head(s, id, None, rank), Head(Append(s, e), id, None, rank), rank)
  {
    if Validate(s, e).Appended? {
      AppendHeads(s, e);
    } else {
      RejectedAppendIsSilent(s, e);
    }
  }

  /** The head of a bucket never goes back, over any sequence of appends. */
  lemma {:induction false} HeadNeverDecreases(s: LogState, es: seq<Entry>, id: Uuid, rank: Link -> nat)
    requires Valid(s)
    ensures Valid(AppendAll(s, es))
    ensures HeadAtMost(Head(s, id, None, rank), Head(AppendAll(s, es), id, None, rank), rank)
  {
    if es != [] {
      HeadNeverDecreases(s, es[..|es| - 1], id, rank);
      AppendKeepsValid(AppendAll(s, es[..|es| - 1]), es[|es| - 1]);
      HeadOnAppend(AppendAll(s, es[..|es| - 1]), es[|es| - 1], id, rank);
    }
  }

  /** The head of a valid log, at any height asked for or at the top: the greatest link there, and none exactly when
      nothing is there. */
  lemma HeadIs(s: LogState, id: Uuid, at: Option<nat>, rank: Link -> nat)
    requires Valid(s)
    ensures match Head(s, id, at, rank)
            case None => forall h: nat, l :: l in Heads(s, id, h) ==> at.Some? && h != at.value
            case Some((link, height)) =>
              && link in Heads(s, id, height)
              && (forall l :: l in Heads(s, id, height) ==> rank(l) <= rank(link))
              && (at.Some? ==> height == at.value)
              && (at.None? ==> forall h: nat, l :: l in Heads(s, id, h) ==> h <= height)
  {}

  /** The same links at the same heights. */
  ghost predicate SameEntries(s: LogState, t: LogState, id: Uuid) {
    forall h, l :: l in Heads(s, id, h) <==> l in Heads(t, id, h)
  }

  /** Logs with the same entries report the same head. */
  lemma SameEntriesSameHead(s: LogState, t: LogState, id: Uuid, rank: Link -> nat)
    requires Valid(s) && Valid(t) && SameEntries(s, t, id) && Injective(rank)
    ensures Head(s, id, None, rank) == Head(t, id, None, rank)
  {
    assert forall h :: (Heads(s, id, h) != [] ==> Heads(s, id, h)[0] in Heads(t, id, h))
                    && (Heads(t, id, h) != [] ==> Heads(t, id, h)[0] in Heads(s, id, h));
    assert Height(s, id).Some? ==> Heads(t, id, Height(s, id).value) != [];
    assert Height(t, id).Some? ==> Heads(s, id, Height(t, id).value) != [];
  }

  /** Every append of the sequence is accepted. */
  ghost predicate AllAccepted(s: LogState, es: seq<Entry>) {
    es == [] ||
    (AllAccepted(s, es[..|es| - 1]) && Validate(AppendAll(s, es[..|es| - 1]), es[|es| - 1]).Appended?)
  }

  ghost predicate Lists(es: seq<Entry>, id: Uuid, h: nat, l: Link) {
    exists e :: e in es && e.id == id && e.height == h && e.current == l
  }

  lemma ListsOneMore(es: seq<Entry>, e: Entry, id: Uuid, h: nat, l: Link)
    ensures Lists(es + [e], id, h, l) <==> Lists(es, id, h, l) || (e.id == id && e.height == h && e.current == l)
  {
    assert e in es + [e];
  }

  /** An accepted sequence leaves exactly its own entries. */
  lemma {:induction false} AcceptedEntries(es: seq<Entry>, id: Uuid, h: nat, l: Link)
    requires AllAccepted(EMPTY_STATE, es)
    ensures l in Heads(AppendAll(EMPTY_STATE, es), id, h) <==> Lists(es, id, h, l)
  {
    if es != [] {
      var front, last := es[..|es| - 1], es[|es| - 1];
      assert es == front + [last];
      AcceptedEntries(front, id, h, l);
      HeadsOneMore(AppendAll(EMPTY_STATE, front), last, id, h, l);
      ListsOneMore(front, last, id, h, l);
    }
  }

  /** Peers that accepted the same appends, each in its own order, report the same head. */
  lemma ArrivalOrderIsIrrelevant(es: seq<Entry>, fs: seq<Entry>, id: Uuid, rank: Link -> nat)
    requires AllAccepted(EMPTY_STATE, es) && AllAccepted(EMPTY_STATE, fs) && multiset(es) == multiset(fs)
             && Injective(rank)
    ensures Head(AppendAll(EMPTY_STATE, es), id, None, rank) == Head(AppendAll(EMPTY_STATE, fs), id, None, rank)
  {
    forall h, l
      ensures l in Heads(AppendAll(EMPTY_STATE, es), id, h) <==> l in Heads(AppendAll(EMPTY_STATE, fs), id, h)
    {
      AcceptedEntries(es, id, h, l);
      AcceptedEntries(fs, id, h, l);
      assert forall e :: e in es <==> e in multiset(es);
      assert forall e :: e in fs <==> e in multiset(fs);
    }
    ValidAfterAnyAppends(es);
    ValidAfterAnyAppends(fs);
    SameEntriesSameHead(AppendAll(EMPTY_STATE, es), AppendAll(EMPTY_STATE, fs), id, rank);
  }

  // ---------- the latest published version ----------

  /** The link is flagged, and no link before it in the list is. */
  ghost predicate IsFirstFlagged(s: LogState, id: Uuid, links: seq<Link>, l: Link) {
    exists i :: && 0 <= i < |links| && links[i] == l && Flagged(s, id, l)
                && forall j :: 0 <= j < i ==> !Flagged(s, id, links[j])
  }

  /** The first flagged link of a list. */
  function FirstFlagged(s: LogState, id: Uuid, links: seq<Link>): (f: Option<Link>)
    ensures f.None? <==> forall l :: l in links ==> !Flagged(s, id, l)
    ensures f.Some? ==> IsFirstFlagged(s, id, links, f.value)
  {
    if links == [] then None else
    var last := links[|links| - 1];
    var before := FirstFlagged(s, id, links[..|links| - 1]);
    assert links == links[..|links| - 1] + [last];
    if before.Some? then before
    else if Flagged(s, id, last) then
      assert forall j :: 0 <= j < |links| - 1 ==> links[j] in links[..|links| - 1];
      Some(last)
    else None
  }

  /** The greatest height that holds a flagged link, with the first such link there. */
  ghost predicate IsLatestPublished(s: LogState, id: Uuid, best: Option<(Link, nat)>) {
    match best
    case None => forall h, l :: l in Heads(s, id, h) ==> !Flagged(s, id, l)
    case Some((l, h)) =>
      && IsFirstFlagged(s, id, Heads(s, id, h), l)
      && forall higher, x :: higher > h && x in Heads(s, id, higher) ==> !Flagged(s, id, x)
  }
}
