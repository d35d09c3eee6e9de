/** When an accepted poll runs what its manifest lists, and what becomes of a listing it could not get. */
module Downloads {
  import opened Prelude
  import opened Content
  import opened ClientModel
  import opened ClientProofs

  function Digests(cache: map<Id, CacheEntry>): map<Id, Digest> {
    map id | id in cache :: cache[id].digest
  }

  function Listed(listings: seq<Listing>): map<Id, Digest> {
    if listings == [] then map[]
    else Listed(listings[..|listings| - 1])[listings[|listings| - 1].id := listings[|listings| - 1].digest]
  }

  predicate Holds(cache: map<Id, CacheEntry>, l: Listing) { l.id in cache && cache[l.id].digest == l.digest }

  /** The listing is cached already, or its digest is supported and it came in the bundle or by itself. */
  predicate Had(st: State, m: Manifest, net: Network, l: Listing) {
    || Holds(st.deployments, l)
    || (l.digest.Sha256? && (l.id in Seed(st, net, m) || Fetched(net, l).Some?))
  }

  predicate AllHad(st: State, m: Manifest, net: Network) {
    forall l :: l in m.listings ==> Had(st, m, net, l)
  }

  // ---- What one accepted poll applies ----------------------------------------------

  lemma {:induction false} ListedUnique(listings: seq<Listing>)
    requires UniqueIds(listings)
    ensures Listed(listings).Keys == IdsListed(listings)
    ensures forall l :: l in listings ==> l.id in Listed(listings) && Listed(listings)[l.id] == l.digest
  {
    if listings != [] {
      var front, l := listings[..|listings| - 1], listings[|listings| - 1];
      assert listings == front + [l];
      ListedUnique(front);
      LastIsNew(listings, listings);
    }
  }

  predicate Gets(cache: map<Id, CacheEntry>, net: Network, l: Listing) {
    l.digest.Sha256? && (Holds(cache, l) || Fetched(net, l).Some?)
  }

  lemma OneResolvedIff(cache: map<Id, CacheEntry>, net: Network, resolved: map<Id, Resolved>, l: Listing)
    ensures l.id in ResolveOne(cache, net, resolved, l) <==> l.id in resolved || Gets(cache, net, l)
  {
  }

  lemma {:induction false} UnlistedIsSeeded(
    cache: map<Id, CacheEntry>, net: Network, seed: map<Id, Resolved>, listings: seq<Listing>, id: Id)
    requires id !in IdsListed(listings)
    ensures id in ResolveAll(cache, net, seed, listings) <==> id in seed
  {
    if listings != [] {
      var front, last := listings[..|listings| - 1], listings[|listings| - 1];
      assert listings == front + [last];
      assert last in listings;
      UnlistedIsSeeded(cache, net, seed, front, id);
      ElsewhereKept(cache, net, ResolveAll(cache, net, seed, front), last, id);
    }
  }

  /** Of unique listings exactly those are resolved that were seeded, or cached or fetched as supported. */
  lemma {:induction false} ResolvedIff(
    cache: map<Id, CacheEntry>, net: Network, seed: map<Id, Resolved>, listings: seq<Listing>, l: Listing)
    requires UniqueIds(listings) && l in listings
    ensures l.id in ResolveAll(cache, net, seed, listings) <==> l.id in seed || Gets(cache, net, l)
  {
    var front, last := listings[..|listings| - 1], listings[|listings| - 1];
    assert listings == front + [last];
    LastIsNew(listings, listings);
    if l == last {
      UnlistedIsSeeded(cache, net, seed, front, l.id);
      OneResolvedIff(cache, net, ResolveAll(cache, net, seed, front), l);
    } else {
      assert l.id in IdsListed(front);
      ResolvedIff(cache, net, seed, front, l);
      ElsewhereKept(cache, net, ResolveAll(cache, net, seed, front), last, l.id);
    }
  }

  /** After an accepted poll a listing has its digest in the cache exactly if it was had. */
  lemma DigestAfter(st: State, r: Response, net: Network, l: Listing)
    requires Accepts(st, r) && UniqueIds(r.manifest.listings) && l in r.manifest.listings
    ensures Holds(Polled(st, r, net).deployments, l) <==> Had(st, r.manifest, net, l)
  {
    var m := r.manifest;
    ResolvedIff(st.deployments, net, Seed(st, net, m), m.listings, l);
    PollOutcome(st, r, net, l.id);
    LastDigestListed(m.listings, l.id);
    SeedSound(st, net, m);
    if l.id in ResolvedBy(st, m, net) {
      ResolvedDigest(st, m, net, l.id);
      SameListing(m.listings, Listing(l.id, LastDigest(m.listings, l.id).value), l);
    }
  }

  /** A cache of listed ids is the manifest exactly if it holds each of its unique listings. */
  lemma IsListedIff(cache: map<Id, CacheEntry>, listings: seq<Listing>)
    requires UniqueIds(listings) && forall id :: id in cache ==> id in IdsListed(listings)
    ensures Digests(cache) == Listed(listings) <==> forall l :: l in listings ==> Holds(cache, l)
  {
    ListedUnique(listings);
    if forall l :: l in listings ==> Holds(cache, l) {
      forall id | id in Listed(listings) ensures id in cache && cache[id].digest == Listed(listings)[id] {
        var l :| l in listings && l.id == id;
        assert Holds(cache, l);
      }
      assert Digests(cache) == Listed(listings);
    } else {
      var l :| l in listings && !Holds(cache, l);
      assert l.id in Listed(listings) && Listed(listings)[l.id] == l.digest;
    }
  }

  /** An accepted poll leaves exactly the id-to-digest map of its manifest if and only if every listing
      was cached with its digest, or is supported and was in the bundle or could be fetched. */
  lemma AppliedIff(st: State, r: Response, net: Network)
    requires Accepts(st, r) && UniqueIds(r.manifest.listings)
    ensures Digests(Polled(st, r, net).deployments) == Listed(r.manifest.listings) <==> AllHad(st, r.manifest, net)
  {
    var m, after := r.manifest, Polled(st, r, net).deployments;
    forall l | l in m.listings ensures Holds(after, l) <==> Had(st, m, net, l) { DigestAfter(st, r, net, l); }
    forall id | id in after ensures id in IdsListed(m.listings) { PollOutcome(st, r, net, id); }
    IsListedIff(after, m.listings);
  }

  // ---- Polls that bring nothing newer ----------------------------------------------

  datatype Poll = Poll(response: Response, net: Network)

  function PolledAll(st: State, polls: seq<Poll>): State {
    if polls == [] then st
    else Polled(PolledAll(st, polls[..|polls| - 1]), polls[|polls| - 1].response, polls[|polls| - 1].net)
  }

  predicate Newer(r: Response, version: nat) { r.Fresh? && r.manifest.version > version }

  lemma {:induction false} VersionsRise(st: State, polls: seq<Poll>)
    ensures PolledAll(st, polls).version >= st.version
    ensures forall p :: p in polls && p.response.Fresh? ==> PolledAll(st, polls).version >= p.response.manifest.version
  {
    if polls != [] {
      VersionsRise(st, polls[..|polls| - 1]);
      assert polls == polls[..|polls| - 1] + [polls[|polls| - 1]];
    }
  }

  /** Any sequence of polls, over any networks, leaves the state as it was exactly when none of the
      answers is newer than the version held: nothing is fetched again under the same manifest. */
  lemma {:induction false} UnchangedIff(st: State, polls: seq<Poll>)
    ensures PolledAll(st, polls) == st <==> forall p :: p in polls ==> !Newer(p.response, st.version)
  {
    VersionsRise(st, polls);
    if polls != [] && forall p :: p in polls ==> !Newer(p.response, st.version) {
      assert polls[|polls| - 1] in polls;
      UnchangedIff(st, polls[..|polls| - 1]);
    }
  }

  /** What an accepted poll could not get stays missing through all further polls, however well they
      could be answered, until one brings a newer manifest. */
  lemma LostStaysLost(st: State, r: Response, net: Network, polls: seq<Poll>)
    requires Accepts(st, r) && UniqueIds(r.manifest.listings) && !AllHad(st, r.manifest, net)
    requires forall p :: p in polls ==> !Newer(p.response, r.manifest.version)
    ensures Digests(PolledAll(Polled(st, r, net), polls).deployments) != Listed(r.manifest.listings)
  {
    AppliedIff(st, r, net);
    UnchangedIff(Polled(st, r, net), polls);
  }

  /** One download that is lost, corrupt or unreadable: a new client runs nothing after any number of
      polls of the same manifest that would all be answered. */
  lemma LostOnce(d: Descriptor, id: Id, etag: Option<Manifest>, lost: Network, polls: seq<Poll>)
    requires Fetched(lost, Listing(id, Sha256(Render(d)))).None?
    requires var m := Manifest(2, None, [Listing(id, Sha256(Render(d)))]);
             forall p :: p in polls ==> p == Poll(Fresh(m, etag), Network(None, (_, _) => Some(Render(d))))
    ensures var r := Fresh(Manifest(2, None, [Listing(id, Sha256(Render(d)))]), etag);
            var after := PolledAll(Polled(FRESH_CLIENT, r, lost), polls);
            after.version == 2 && after.deployments == map[] && Listed(r.manifest.listings) != map[]
  {
    var l := Listing(id, Sha256(Render(d)));
    OneUnresolved(l, lost);
    UnchangedIff(Polled(FRESH_CLIENT, Fresh(Manifest(2, None, [l]), etag), lost), polls);
    assert id in Listed([l]);
  }

  // ---- What the specification says to abort ----------------------------------------

  /** The specification asks a client to abort, and so retain its state, on an unsupported digest or on
      content of the wrong digest. A poll retains its state exactly when its answer is not newer; what
      digests it lists and what the downloads hold make no difference. */
  lemma AbortsIff(st: State, r: Response, net: Network)
    ensures Polled(st, r, net) == st <==> !Accepts(st, r)
  {
    if Accepts(st, r) { assert Polled(st, r, net).version > st.version; }
  }

  /** What happens instead: a listing that was not had, for whatever reason, is passed over. Its id keeps
      the entry it had, which is not the listed one, while the version moves on. */
  lemma NotHadIsSkipped(st: State, r: Response, net: Network, l: Listing)
    requires Accepts(st, r) && UniqueIds(r.manifest.listings) && l in r.manifest.listings
    requires !Had(st, r.manifest, net, l)
    ensures var before, after := st.deployments, Polled(st, r, net);
      && after.version == r.manifest.version
      && (l.id in after.deployments <==> l.id in before)
      && (l.id in before ==> after.deployments[l.id] == before[l.id])
      && Digests(after.deployments) != Listed(r.manifest.listings)
  {
    var m := r.manifest;
    ResolvedIff(st.deployments, net, Seed(st, net, m), m.listings, l);
    SeedSound(st, net, m);
    if l.id in Seed(st, net, m) { SameListing(m.listings, Listing(l.id, Seed(st, net, m)[l.id].digest), l); }
    PollOutcome(st, r, net, l.id);
    assert l.id in IdsListed(m.listings);
    AppliedIff(st, r, net);
  }

  /** A truthful cache holds supported digests only, so it never has an unsupported listing. */
  lemma UnsupportedIsNotHad(st: State, m: Manifest, net: Network, l: Listing)
    requires AllTruthful(st.deployments)
    ensures Had(st, m, net, l) ==> l.digest.Sha256?
  {
    if l.id in st.deployments { assert Truthful(st.deployments[l.id]); }
  }

  lemma OneUnresolved(l: Listing, net: Network)
    requires !Gets(map[], net, l)
    ensures ResolvedBy(FRESH_CLIENT, Manifest(2, None, [l]), net) == map[]
  {
    assert [l][..0] == [];
    assert ResolveAll(map[], net, map[], []) == map[];
    assert ResolveOne(map[], net, map[], l) == map[];
  }

  /** A client that runs nothing accepts a manifest of one unsupported digest and still runs nothing. */
  lemma UnsupportedOnce(id: Id, text: string, etag: Option<Manifest>, net: Network)
    ensures var after := Polled(FRESH_CLIENT, Fresh(Manifest(2, None, [Listing(id, Other(text))]), etag), net);
            after.version == 2 && after.etag == etag && after.deployments == map[]
  {
    OneUnresolved(Listing(id, Other(text)), net);
  }
}
