/** Version chains: every manifest names its predecessor, so a link determines its whole history. */
module Chains {
  import opened Content
  import opened Trees
  import opened Mounts

  function Previous(link: Link): Option<Link> {
    if link.hash.blob.ManifestBlob? then link.hash.blob.manifest.previous else None
  }

  /** The history of a link, oldest first. */
  function Chain(link: Link): (chain: seq<Link>)
    ensures chain != [] && chain[|chain| - 1] == link
    decreases link
  {
    if Previous(link).None? then [link] else Chain(Previous(link).value) + [link]
  }

  /** The history of a link that is in a history is the part up to it. */
  lemma {:induction false} ChainIsPrefix(link: Link, x: Link)
    requires x in Chain(link)
    ensures |Chain(x)| <= |Chain(link)| && Chain(x) == Chain(link)[..|Chain(x)|]
    decreases link
  {
    if x != link {
      var before := Previous(link).value;
      assert x in Chain(before);
      ChainIsPrefix(before, x);
    }
  }

  /** Two links that are in each other's history are the same. */
  lemma InEachOther(x: Link, y: Link)
    requires x in Chain(y) && y in Chain(x)
    ensures x == y
  {
    ChainIsPrefix(y, x);
    ChainIsPrefix(x, y);
    assert Chain(x) == Chain(y);
  }

  lemma InChainTransitive(x: Link, y: Link, z: Link)
    requires x in Chain(y) && y in Chain(z)
    ensures x in Chain(z)
  {
    ChainIsPrefix(z, y);
  }

  /** Every link of the history is a manifest and present. */
  ghost predicate Readable(store: Store, link: Link) {
    forall l :: l in Chain(link) ==> GetManifest(store, l).Ok?
  }

  lemma ReadablePrevious(store: Store, link: Link)
    requires Readable(store, link)
    ensures link.hash.blob.ManifestBlob? && GetManifest(store, link) == Ok(link.hash.blob.manifest)
    ensures Previous(link).Some? ==> Readable(store, Previous(link).value)
  {
    assert link in Chain(link);
  }

  // ---------- the common ancestor of two mounts ----------

  /** All links of a history, read from the store. */
  function Collect(store: Store, link: Link): (r: Result<set<Link>>)
    ensures r.Ok? ==> link in r.value
    decreases link
  {
    var m := GetManifest(store, link);
    if m.Err? then Err(m.error)
    else if m.value.previous.None? then Ok({link})
    else
      var rest := Collect(store, m.value.previous.value);
      if rest.Err? then rest else Ok(rest.value + {link})
  }

  /** The newest link of a history that is in a set. */
  function FirstIn(store: Store, link: Link, links: set<Link>): Result<Option<Link>>
    decreases link
  {
    if link in links then Ok(Some(link)) else
    var m := GetManifest(store, link);
    if m.Err? then Err(m.error)
    else if m.value.previous.None? then Ok(None)
    else FirstIn(store, m.value.previous.value, links)
  }

  function CommonAncestor(store: Store, self: Link, other: Link): Result<Option<Link>> {
    var links := Collect(store, self);
    if links.Err? then Err(links.error) else FirstIn(store, other, links.value)
  }

  /** What is still to be collected from a link on, with what was collected before. */
  ghost function Joined(rest: Result<set<Link>>, seen: set<Link>): Result<set<Link>> {
    if rest.Err? then rest else Ok(rest.value + seen)
  }

  lemma JoinedStep(store: Store, link: Link, seen: set<Link>)
    requires GetManifest(store, link).Ok? && GetManifest(store, link).value.previous.Some? && link in seen
    ensures var p := GetManifest(store, link).value.previous.value;
            Joined(Collect(store, link), seen) == Joined(Collect(store, p), seen + {p})
  {
    var rest := Collect(store, GetManifest(store, link).value.previous.value);
    if rest.Ok? {
      assert rest.value + {link} + seen == rest.value + (seen + {GetManifest(store, link).value.previous.value});
    }
  }

  /** The walk over both chains, with the links of the first kept in a set. */
  method FindCommonAncestor(store: Store, self: Link, other: Link) returns (r: Result<Option<Link>>)
    ensures r == CommonAncestor(store, self, other)
  {
    var seen, link := {self}, self;
    var m := GetManifest(store, link);
    assert Collect(store, self) == Joined(Collect(store, self), {self}) by {
      assert Collect(store, self).Ok? ==> Collect(store, self).value + {self} == Collect(store, self).value;
    }
    while m.Ok? && m.value.previous.Some?
      invariant m == GetManifest(store, link) && link in seen
      invariant Collect(store, self) == Joined(Collect(store, link), seen)
      decreases link
    {
      JoinedStep(store, link, seen);
      link := m.value.previous.value;
      m := GetManifest(store, link);
      seen := seen + {link};
    }
    if m.Err? {
      return Err(m.error);
    }
    assert {link} + seen == seen;
    link := other;
    while link !in seen
      invariant FirstIn(store, other, seen) == FirstIn(store, link, seen)
      decreases link
    {
      m := GetManifest(store, link);
      if m.Err? {
        return Err(m.error);
      }
      if m.value.previous.None? {
        return Ok(None);
      }
      link := m.value.previous.value;
    }
    return Ok(Some(link));
  }

  lemma {:induction false} CollectIsChain(store: Store, link: Link)
    requires Readable(store, link)
    ensures Collect(store, link).Ok? && forall l :: l in Collect(store, link).value <==> l in Chain(link)
    decreases link
  {
    ReadablePrevious(store, link);
    if Previous(link).Some? {
      CollectIsChain(store, Previous(link).value);
    }
  }

  lemma {:induction false} FirstInIsNewest(store: Store, link: Link, links: set<Link>)
    requires Readable(store, link)
    ensures var r := FirstIn(store, link, links);
            && r.Ok?
            && (r.value.None? ==> forall l :: l in Chain(link) ==> l !in links)
            && (r.value.Some? ==>
                  && r.value.value in links && r.value.value in Chain(link)
                  && forall l :: l in Chain(link) && l in links ==> l in Chain(r.value.value))
    decreases link
  {
    ReadablePrevious(store, link);
    if link !in links && Previous(link).Some? {
      FirstInIsNewest(store, Previous(link).value, links);
    }
  }

  /** The newest common link: on both chains, with every other common link in its history. */
  ghost predicate NewestCommon(x: Link, a: Link, b: Link) {
    x in Chain(a) && x in Chain(b) && forall l :: l in Chain(a) && l in Chain(b) ==> l in Chain(x)
  }

  /** The search is exact: it finds the newest link on both chains, nothing exactly when they are disjoint, and the
      same from either side. */
  lemma AncestorSearchIsExact(store: Store, a: Link, b: Link)
    requires Readable(store, a) && Readable(store, b)
    ensures var r := CommonAncestor(store, a, b);
            && r.Ok?
            && (r.value.None? <==> forall l :: l in Chain(a) ==> l !in Chain(b))
            && (r.value.Some? ==> NewestCommon(r.value.value, a, b))
    ensures CommonAncestor(store, a, b) == CommonAncestor(store, b, a)
  {
    OneSideExact(store, a, b);
    OneSideExact(store, b, a);
    var x, y := CommonAncestor(store, a, b).value, CommonAncestor(store, b, a).value;
    if x.Some? && y.Some? {
      InEachOther(x.value, y.value);
    }
  }

  lemma OneSideExact(store: Store, a: Link, b: Link)
    requires Readable(store, a) && Readable(store, b)
    ensures var r := CommonAncestor(store, a, b);
            && r.Ok?
            && (r.value.None? <==> forall l :: l in Chain(a) ==> l !in Chain(b))
            && (r.value.Some? ==> NewestCommon(r.value.value, a, b))
  {
    CollectIsChain(store, a);
    FirstInIsNewest(store, b, Collect(store, a).value);
  }

  lemma {:induction false} CollectExactlyWhen(store: Store, link: Link)
    ensures Collect(store, link).Ok? <==> Readable(store, link)
    decreases link
  {
    assert link in Chain(link);
    if Previous(link).Some? {
      var p := Previous(link).value;
      CollectExactlyWhen(store, p);
      assert forall l :: l in Chain(link) <==> l in Chain(p) || l == link;
    }
  }

  /** The walk down a chain stops at the first link of a set that is closed under history, and reads those above it. */
  lemma {:induction false} FirstInExactlyWhen(store: Store, link: Link, links: set<Link>)
    requires forall l, x :: l in links && x in Chain(l) ==> x in links
    ensures FirstIn(store, link, links).Ok?
            <==> forall l :: l in Chain(link) && l !in links ==> GetManifest(store, l).Ok?
    decreases link
  {
    assert link in Chain(link);
    if link !in links && Previous(link).Some? {
      var p := Previous(link).value;
      FirstInExactlyWhen(store, p, links);
      assert forall l :: l in Chain(link) <==> l in Chain(p) || l == link;
    }
  }

  /** When the search succeeds: exactly when the first chain can be read in full, and the second one down to where it
      meets the first. */
  lemma AncestorSearchSucceedsWhen(store: Store, a: Link, b: Link)
    ensures CommonAncestor(store, a, b).Ok? <==>
            Readable(store, a) && forall l :: l in Chain(b) && l !in Chain(a) ==> GetManifest(store, l).Ok?
  {
    CollectExactlyWhen(store, a);
    if Readable(store, a) {
      CollectIsChain(store, a);
      var links := Collect(store, a).value;
      forall l, x | l in links && x in Chain(l) ensures x in links {
        InChainTransitive(x, l, a);
      }
      FirstInExactlyWhen(store, b, links);
    }
  }

  // ---------- heights ----------

  /** Heights count the versions before. */
  ghost predicate HeightsCount(link: Link) {
    forall l :: l in Chain(link) ==> l.hash.blob.ManifestBlob? && l.hash.blob.manifest.height == |Chain(l)| - 1
  }

  /** Heights count the versions exactly when genesis is at height 0 and each version is one above its predecessor. */
  lemma {:induction false} HeightsCountWhen(link: Link)
    ensures HeightsCount(link) <==>
            && link.hash.blob.ManifestBlob?
            && match Previous(link)
               case None => link.hash.blob.manifest.height == 0
               case Some(p) => HeightsCount(p) && link.hash.blob.manifest.height == p.hash.blob.manifest.height + 1
    decreases link
  {
    assert link in Chain(link);
    if Previous(link).Some? {
      var p := Previous(link).value;
      assert forall l :: l in Chain(link) <==> l in Chain(p) || l == link;
      assert p in Chain(p);
    }
  }

  /** The newest common link is the highest one. */
  lemma NewestCommonIsHighest(x: Link, a: Link, b: Link, l: Link)
    requires NewestCommon(x, a, b) && HeightsCount(a) && l in Chain(a) && l in Chain(b) && l != x
    ensures l.hash.blob.manifest.height < x.hash.blob.manifest.height
  {
    ChainIsPrefix(x, l);
  }
}
