/** The in-memory provider: the five maps as fields that one append updates in place. */
module MemoryBucketLogs {
  import opened Content
  import opened BucketLog

  /** The link is at the height already. */
  ghost predicate Listed(s: LogState, e: Entry) {
    e.current in Heads(s, e.id, e.height)
  }

  /** The entry has a predecessor one height below it, or is a genesis at height 0. */
  ghost predicate Seated(s: LogState, e: Entry) {
    || (e.previous.None? && e.height == 0)
    || (e.previous.Some? && e.height > 0 && e.previous.value in Heads(s, e.id, e.height - 1))
  }

  class MemoryBucketLog {
    var entries: map<Uuid, map<nat, seq<Link>>>
    var maxHeights: map<Uuid, nat>
    var linkIndex: map<Uuid, map<Link, seq<nat>>>
    var names: map<Uuid, string>
    var published: map<Uuid, map<Link, bool>>

    ghost function Value(): LogState
      reads this
    {
      LogState(entries, maxHeights, linkIndex, names, published)
    }

    constructor ()
      ensures Value() == EMPTY_STATE
    {
      entries, maxHeights, linkIndex, names, published := map[], map[], map[], map[], map[];
    }

    method AppendEntry(e: Entry) returns (result: AppendResult)
      modifies this
      ensures Value() == Append(old(Value()), e)
      ensures result == Validate(old(Value()), e)
      ensures result.Conflict? <==> Listed(old(Value()), e)
      ensures result.Appended? <==> !Listed(old(Value()), e) && Seated(old(Value()), e)
    {
      names := names[e.id := e.name];
      entries := entries[e.id := if e.id in entries then entries[e.id] else map[]];
      result := Check(e);
      if result.Appended? {
        Insert(e);
      }
    }

    method Check(e: Entry) returns (result: AppendResult)
      requires e.id in entries
      ensures result == Validate(Value(), e)
      ensures result.Conflict? <==> Listed(Value(), e)
      ensures result.Appended? <==> !Listed(Value(), e) && Seated(Value(), e)
    {
      var bucket: map<nat, seq<Link>> := entries[e.id];
      if e.height in bucket && e.current in bucket[e.height] {
        return Conflict;
      }
      if e.previous.Some? {
        if e.height == 0 {
          return InvalidAppend;
        }
        var expected: nat := e.height - 1;
        if !(expected in bucket && e.previous.value in bucket[expected]) {
          return InvalidAppend;
        }
      } else if e.height != 0 {
        return InvalidAppend;
      }
      return Appended;
    }

    method Insert(e: Entry)
      requires e.id in entries
      modifies this
      ensures Value() == Accepted(old(Value()), e)
    {
      InsertLink(e);
      IndexLink(e);
    }

    method InsertLink(e: Entry)
      requires e.id in entries
      modifies this`entries, this`maxHeights
      ensures entries == Accepted(old(Value()), e).entries && maxHeights == Accepted(old(Value()), e).maxHeights
    {
      var bucket: map<nat, seq<Link>> := entries[e.id];
      bucket := bucket[e.height := (if e.height in bucket then bucket[e.height] else []) + [e.current]];
      entries := entries[e.id := bucket];
      if e.id !in maxHeights || e.height > maxHeights[e.id] {
        maxHeights := maxHeights[e.id := e.height];
      }
    }

    method IndexLink(e: Entry)
      modifies this`linkIndex, this`published
      ensures linkIndex == Accepted(old(Value()), e).linkIndex && published == Accepted(old(Value()), e).published
    {
      var index := if e.id in linkIndex then linkIndex[e.id] else map[];
      index := index[e.current := (if e.current in index then index[e.current] else []) + [e.height]];
      linkIndex := linkIndex[e.id := index];
      var flags := if e.id in published then published[e.id] else map[];
      published := published[e.id := flags[e.current := e.published]];
    }

    /** Visits the heights in any order and keeps the greatest that holds a flagged link. The answer does not depend on
        the order: it is the first flagged link of the greatest such height. */
    method LatestPublished(id: Uuid) returns (best: Option<(Link, nat)>)
      ensures IsLatestPublished(Value(), id, best)
    {
      best := None;
      if id !in published {
        return;
      }
      if id !in entries {
        return;
      }
      var rest := entries[id].Keys;
      while rest != {}
        invariant rest <= entries[id].Keys
        invariant BestOf(Value(), id, best, entries[id].Keys - rest)
        decreases rest
      {
        var height :| height in rest;
        best := ScanHeight(id, height, entries[id][height], best);
        rest := rest - {height};
      }
    }

    /** The inner loop: a flagged link replaces a best of lower height. */
    method ScanHeight(id: Uuid, height: nat, links: seq<Link>, best: Option<(Link, nat)>)
      returns (better: Option<(Link, nat)>)
      requires id in published
      ensures better == Better(Value(), id, height, links, best)
    {
      better := best;
      for i := 0 to |links|
        invariant better == Better(Value(), id, height, links[..i], best)
      {
        assert links[..i + 1][..i] == links[..i];
        if links[i] in published[id] && published[id][links[i]] && (better.None? || height > better.value.1) {
          better := Some((links[i], height));
        }
      }
      assert links[..|links|] == links;
    }
  }

  /** The best so far after one more height. */
  function Better(s: LogState, id: Uuid, height: nat, links: seq<Link>, best: Option<(Link, nat)>)
    : Option<(Link, nat)>
  {
    var f := FirstFlagged(s, id, links);
    if f.Some? && (best.None? || height > best.value.1) then Some((f.value, height)) else best
  }

  /** The answer if only the given heights existed. */
  ghost predicate BestOf(s: LogState, id: Uuid, best: Option<(Link, nat)>, heights: set<nat>) {
    match best
    case None => forall h :: h in heights ==> FirstFlagged(s, id, Heads(s, id, h)).None?
    case Some((l, h)) =>
      && h in heights
      && FirstFlagged(s, id, Heads(s, id, h)) == Some(l)
      && forall higher :: higher in heights && higher > h ==> FirstFlagged(s, id, Heads(s, id, higher)).None?
  }
}
