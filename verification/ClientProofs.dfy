/** What one poll does, and why the bundle is only a shortcut. */
module ClientProofs {
  import opened Prelude
  import opened Content
  import opened ClientModel

  // ---- What is resolved ------------------------------------------------------------

  /** The digest of the last listing of this id that the client supports. */
  function LastDigest(listings: seq<Listing>, id: Id): Option<Digest> {
    if listings == [] then None
    else
      var l := listings[|listings| - 1];
      if l.id == id && l.digest.Sha256? then Some(l.digest) else LastDigest(listings[..|listings| - 1], id)
  }

  lemma {:induction false} IndexIsListed(listings: seq<Listing>)
    ensures forall g :: g in DigestIndex(listings) ==> Listing(DigestIndex(listings)[g], g) in listings
  {
    if listings != [] {
      IndexIsListed(listings[..|listings| - 1]);
      assert listings == listings[..|listings| - 1] + [listings[|listings| - 1]];
    }
  }

  /** What fetching one descriptor on its own resolves. */
  ghost predicate SingleResult(listings: seq<Listing>, id: Id, r: Resolved) {
    && r.digest.Sha256? && Listing(id, r.digest) in listings
    && r.descriptor == Parse(r.digest.content) && r.descriptor.Some?
  }

  ghost predicate SingleResults(listings: seq<Listing>, resolved: map<Id, Resolved>) {
    forall id :: id in resolved ==> SingleResult(listings, id, resolved[id])
  }

  /** Whatever a bundle holds, an unpacked entry is listed under its own digest and carries the
      descriptor of that digest. */
  lemma {:induction false} UnpackSound(entries: seq<Entry>, listings: seq<Listing>)
    ensures SingleResults(listings, Unpack(entries, DigestIndex(listings)))
  {
    if entries != [] {
      var index, e := DigestIndex(listings), entries[|entries| - 1];
      UnpackSound(entries[..|entries| - 1], listings);
      IndexIsListed(listings);
      if Usable(e, index) {
        assert SingleResult(listings, index[Sha256(e.content)], Resolved(Sha256(e.content), Parse(e.content)));
      }
    }
  }

  lemma SeedSound(st: State, net: Network, m: Manifest)
    ensures SingleResults(m.listings, Seed(st, net, m))
  {
    if net.bundle.Some? && net.bundle.value.TarGz? { UnpackSound(net.bundle.value.entries, m.listings); }
  }

  lemma {:induction false} LastDigestListed(listings: seq<Listing>, id: Id)
    ensures LastDigest(listings, id).Some? ==>
      Listing(id, LastDigest(listings, id).value) in listings && id in IdsListed(listings)
    ensures forall l :: l in listings && l.id == id && l.digest.Sha256? ==> LastDigest(listings, id).Some?
  {
    if listings != [] {
      LastDigestListed(listings[..|listings| - 1], id);
      assert listings == listings[..|listings| - 1] + [listings[|listings| - 1]];
    }
  }

  /** Resolving keeps what is resolved and gives it the last supported digest of its id. */
  lemma {:induction false} ResolveAllDigests(
    cache: map<Id, CacheEntry>, net: Network, seed: map<Id, Resolved>, listings: seq<Listing>, id: Id)
    ensures var r := ResolveAll(cache, net, seed, listings);
      && (id in seed ==> id in r)
      && (id in r && LastDigest(listings, id).Some? ==> r[id].digest == LastDigest(listings, id).value)
      && (id in r && LastDigest(listings, id).None? ==> id in seed)
  {
    if listings != [] { ResolveAllDigests(cache, net, seed, listings[..|listings| - 1], id); }
  }

  lemma ResolvedDigest(st: State, m: Manifest, net: Network, id: Id)
    ensures id in ResolvedBy(st, m, net) ==>
              LastDigest(m.listings, id) == Some(ResolvedBy(st, m, net)[id].digest) && id in IdsListed(m.listings)
  {
    SeedSound(st, net, m);
    ResolveAllDigests(st.deployments, net, Seed(st, net, m), m.listings, id);
    LastDigestListed(m.listings, id);
  }

  // ---- The outcome of a poll -------------------------------------------------------

  /** After an accepted poll an id is absent if the manifest does not list it, carries the digest
      the manifest last lists for it if it was resolved, and is as before if it was listed but
      not resolved. Any other poll changes nothing. */
  lemma PollOutcome(st: State, r: Response, net: Network, id: Id)
    ensures !Accepts(st, r) ==> Polled(st, r, net) == st
    ensures Accepts(st, r) ==> Polled(st, r, net).version == r.manifest.version && Polled(st, r, net).etag == r.etag
    ensures Accepts(st, r) ==>
      var before, after, resolved := st.deployments, Polled(st, r, net).deployments, ResolvedBy(st, r.manifest, net);
      && (id !in IdsListed(r.manifest.listings) ==> id !in after)
      && (id in resolved ==> id in after && Some(after[id].digest) == LastDigest(r.manifest.listings, id))
      && (id in IdsListed(r.manifest.listings) && id !in resolved ==>
            (id in after <==> id in before) && (id in before ==> after[id] == before[id]))
  {
    if Accepts(st, r) { ResolvedDigest(st, r.manifest, net, id); }
  }

  // ---- The bundle is a shortcut ----------------------------------------------------

  ghost predicate UniqueIds(listings: seq<Listing>) {
    forall i, j :: 0 <= i < j < |listings| ==> listings[i].id != listings[j].id
  }

  /** Every supported listing can be fetched on its own. */
  ghost predicate AnswersAll(net: Network, listings: seq<Listing>) {
    forall l :: l in listings && l.digest.Sha256? ==> net.fetch(l.id, l.digest) == Some(l.digest.content)
  }

  lemma LastIsNew(all: seq<Listing>, listings: seq<Listing>)
    requires UniqueIds(all) && listings <= all && listings != []
    ensures var l := listings[|listings| - 1]; l in all && l.id !in IdsListed(listings[..|listings| - 1])
  {
    assert all[|listings| - 1] == listings[|listings| - 1];
    assert forall i :: 0 <= i < |listings| ==> all[i] == listings[i];
  }

  lemma ElsewhereKept(cache: map<Id, CacheEntry>, net: Network, resolved: map<Id, Resolved>, l: Listing, id: Id)
    requires l.id != id
    ensures var r := ResolveOne(cache, net, resolved, l);
            (id in r <==> id in resolved) && (id in r ==> r[id] == resolved[id])
  {
  }

  /** One listing resolves the same with what a single fetch would give seeded as without it. */
  lemma SameOne(net: Network, a: map<Id, Resolved>, b: map<Id, Resolved>, l: Listing)
    requires l.digest.Sha256? ==> net.fetch(l.id, l.digest) == Some(l.digest.content)
    requires l.id !in b && (l.id in a ==> SingleResult([l], l.id, a[l.id]))
    ensures var x, y := ResolveOne(map[], net, a, l), ResolveOne(map[], net, b, l);
            (l.id in x <==> l.id in y) && (l.id in x ==> x[l.id] == y[l.id])
  {
    if l.id in a { assert Listing(l.id, a[l.id].digest) == l; }
  }

  ghost predicate SameAt(a: map<Id, Resolved>, b: map<Id, Resolved>, id: Id) {
    (id in a <==> id in b) && (id in a ==> a[id] == b[id])
  }

  /** With an empty cache, resolving the same listings from two seeds that hold only what a single
      fetch would give ends in the same map, once every seeded id has come up. */
  lemma {:induction false} SeedDoesNotMatter(
    net: Network, seed: map<Id, Resolved>, listings: seq<Listing>, all: seq<Listing>, id: Id)
    requires UniqueIds(all) && listings <= all && AnswersAll(net, all)
    requires SingleResults(all, seed)
    ensures var a, b := ResolveAll(map[], net, seed, listings), ResolveAll(map[], net, map[], listings);
      && (id in IdsListed(listings) ==> SameAt(a, b, id))
      && (id !in IdsListed(listings) ==> id !in b && SameAt(a, seed, id))
    decreases |listings|
  {
    if listings != [] {
      var front, l := listings[..|listings| - 1], listings[|listings| - 1];
      var a, b := ResolveAll(map[], net, seed, front), ResolveAll(map[], net, map[], front);
      assert listings == front + [l];
      SeedDoesNotMatter(net, seed, front, all, id);
      LastIsNew(all, listings);
      if l.id != id {
        ElsewhereKept(map[], net, a, l, id);
        ElsewhereKept(map[], net, b, l, id);
      } else {
        if id in seed { SameListing(all, Listing(id, seed[id].digest), l); }
        SameOne(net, a, b, l);
      }
    }
  }

  lemma SameListing(all: seq<Listing>, a: Listing, b: Listing)
    requires UniqueIds(all) && a in all && b in all && a.id == b.id
    ensures a == b
  {
  }

  /** First sync through any bundle whatever, whole, broken, partly unreadable or with foreign
      entries, leaves the deployments that fetching each descriptor singly leaves. */
  lemma BundleIsShortcut(st: State, r: Response, net: Network)
    requires FirstSync(st) && Accepts(st, r)
    requires UniqueIds(r.manifest.listings) && AnswersAll(net, r.manifest.listings)
    ensures Polled(st, r, net).deployments == Polled(st.(bundleFetched := true), r, net).deployments
  {
    var m := r.manifest;
    var seed := Seed(st, net, m);
    var a, b := ResolveAll(map[], net, seed, m.listings), ResolveAll(map[], net, map[], m.listings);
    SeedSound(st, net, m);
    assert Seed(st.(bundleFetched := true), net, m) == map[];
    forall id ensures (id in a <==> id in b) && (id in a ==> a[id] == b[id]) {
      SeedDoesNotMatter(net, seed, m.listings, m.listings, id);
      if id in seed { assert Listing(id, seed[id].digest) in m.listings; }
    }
    assert a == b;
  }

  // ---- Cached entries tell the truth -----------------------------------------------

  /** The entry names the application of the very descriptor its digest stands for. */
  ghost predicate Truthful(e: CacheEntry) {
    && e.digest.Sha256? && Parse(e.digest.content).Some?
    && e.applicationId == Parse(e.digest.content).value.applicationId
    && e.name == Parse(e.digest.content).value.name
  }

  ghost predicate AllTruthful(cache: map<Id, CacheEntry>) { forall id :: id in cache ==> Truthful(cache[id]) }

  /** What may be resolved for an id that is listed once: its content, or the cached entry itself. */
  ghost predicate Faithful(cache: map<Id, CacheEntry>, listings: seq<Listing>, id: Id, r: Resolved) {
    || SingleResult(listings, id, r)
    || (r.descriptor.None? && id in cache && cache[id].digest == r.digest)
  }

  lemma {:induction false} ResolvedIsFaithful(
    cache: map<Id, CacheEntry>, net: Network, seed: map<Id, Resolved>, listings: seq<Listing>, all: seq<Listing>,
    id: Id)
    requires UniqueIds(all) && listings <= all && SingleResults(all, seed)
    ensures var r := ResolveAll(cache, net, seed, listings);
      && (id in r ==> Faithful(cache, all, id, r[id]))
      && (id in r && id !in IdsListed(listings) ==> id in seed && r[id] == seed[id])
    decreases |listings|
  {
    if listings != [] {
      var front, l := listings[..|listings| - 1], listings[|listings| - 1];
      assert listings == front + [l];
      ResolvedIsFaithful(cache, net, seed, front, all, id);
      LastIsNew(all, listings);
      if l.id != id {
        ElsewhereKept(cache, net, ResolveAll(cache, net, seed, front), l, id);
      } else {
        if id in seed { SameListing(all, Listing(id, seed[id].digest), l); }
        OneIsFaithful(cache, net, ResolveAll(cache, net, seed, front), l, all);
      }
    }
  }

  lemma OneIsFaithful(
    cache: map<Id, CacheEntry>, net: Network, resolved: map<Id, Resolved>, l: Listing, all: seq<Listing>)
    requires l in all && (l.id in resolved ==> SingleResult([l], l.id, resolved[l.id]))
    ensures var r := ResolveOne(cache, net, resolved, l); l.id in r ==> Faithful(cache, all, l.id, r[l.id])
  {
    if l.id in resolved { assert Listing(l.id, resolved[l.id].digest) == l; }
  }

  /** A poll of a manifest that lists no id twice leaves only truthful entries, whatever the server and the
      network answer. */
  lemma PollKeepsTruth(st: State, r: Response, net: Network)
    requires AllTruthful(st.deployments) && (r.Fresh? ==> UniqueIds(r.manifest.listings))
    ensures AllTruthful(Polled(st, r, net).deployments)
  {
    if Accepts(st, r) {
      var m := r.manifest;
      SeedSound(st, net, m);
      forall id | id in ResolvedBy(st, m, net)
        ensures Faithful(st.deployments, m.listings, id, ResolvedBy(st, m, net)[id])
      {
        ResolvedIsFaithful(st.deployments, net, Seed(st, net, m), m.listings, m.listings, id);
      }
    }
  }
}
