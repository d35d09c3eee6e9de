/** The desired-state client as it runs: one poll over a cache that is changed in place. */
module Client {
  import opened Prelude
  import opened Content
  import opened Text
  import opened ClientModel
  import opened ClientProofs
  import B = Bundles

  class Device {
    var etag: Option<Manifest>
    var version: nat
    var deployments: map<Id, CacheEntry>
    var bundleFetched: bool
    var log: seq<Action>

    constructor ()
      ensures Snapshot() == FRESH_CLIENT && log == []
    {
      etag, version, deployments, bundleFetched, log := None, 0, map[], false, [];
    }

    function Snapshot(): State
      reads this
    {
      State(etag, version, deployments, bundleFetched)
    }

    /** The new log entries lead from the old cache to the new one, each exactly once. */
    ghost predicate Logged(before: map<Id, CacheEntry>, log0: seq<Action>)
      reads this
    {
      && log0 <= log
      && NoDuplicates(log[|log0|..])
      && forall a :: a in log[|log0|..] <==> Leads(before, deployments, a)
    }

    method PollOnce(response: Response, net: Network)
      modifies this
      ensures Snapshot() == Polled(old(Snapshot()), response, net)
      ensures Logged(old(deployments), old(log))
    {
      if !response.Fresh? || response.manifest.version <= version { return; }
      var manifest := response.manifest;
      version := manifest.version;
      etag := response.etag;

      var resolved: map<Id, Resolved> := map[];
      if !bundleFetched && deployments == map[] {
        var entries := FetchBundleOnce(net, manifest);
        if entries.Some? {
          resolved := entries.value;
          bundleFetched := true;
        }
      }
      var desired: set<Id>;
      desired, resolved := ResolveListings(net, resolved, manifest.listings);
      ReconcileDeployments(desired, resolved);
    }

    method ResolveListings(net: Network, seed: map<Id, Resolved>, listings: seq<Listing>)
      returns (desired: set<Id>, resolved: map<Id, Resolved>)
      ensures desired == IdsListed(listings) && resolved == ResolveAll(deployments, net, seed, listings)
    {
      desired, resolved := {}, seed;
      for i := 0 to |listings|
        invariant desired == IdsListed(listings[..i])
        invariant resolved == ResolveAll(deployments, net, seed, listings[..i])
      {
        assert listings[..i + 1] == listings[..i] + [listings[i]];
        desired := desired + {listings[i].id};
        resolved := Resolve(net, resolved, listings[i]);
      }
      assert listings[..|listings|] == listings;
    }

    method Resolve(net: Network, resolved: map<Id, Resolved>, l: Listing) returns (next: map<Id, Resolved>)
      ensures next == ResolveOne(deployments, net, resolved, l)
    {
      if !l.digest.Sha256? { return resolved; }
      if l.id in resolved { return resolved[l.id := resolved[l.id].(digest := l.digest)]; }
      if l.id in deployments && deployments[l.id].digest == l.digest {
        return resolved[l.id := Resolved(l.digest, None)];
      }
      var got := Fetched(net, l);
      if got.None? { return resolved; }
      return resolved[l.id := Resolved(l.digest, got)];
    }

    /** Plan removals and resolved entries, then walk the plan. */
    method ReconcileDeployments(desired: set<Id>, resolved: map<Id, Resolved>)
      modifies this`deployments, this`log
      ensures deployments == Reconciled(old(deployments), desired, resolved)
      ensures Logged(old(deployments), old(log))
    {
      var plan: map<Id, Option<Resolved>> := map id | id in deployments && id !in desired :: None;
      plan := plan + map id | id in resolved :: Some(resolved[id]);
      assert Walked(deployments, plan) == Reconciled(deployments, desired, resolved);
      WalkPlan(plan);
    }

    /** The order of the walk is left open, as it is for a Go map. */
    method WalkPlan(plan: map<Id, Option<Resolved>>)
      modifies this`deployments, this`log
      ensures deployments == Walked(old(deployments), plan)
      ensures Logged(old(deployments), old(log))
    {
      ghost var before, log0 := deployments, log;
      var todo := plan.Keys;
      while todo != {}
        invariant todo <= plan.Keys
        invariant forall id :: id in todo ==> Agree(deployments, before, id)
        invariant forall id :: id !in todo ==> Agree(deployments, Walked(before, plan), id)
        invariant Logged(before, log0)
      {
        var id :| id in todo;
        ghost var cache, entries := deployments, log;
        ApplyChange(id, plan[id]);
        StillLogged(before, cache, deployments, log0, entries, log, id);
        todo := todo - {id};
      }
      SameMap(deployments, Walked(before, plan));
    }

    method ApplyChange(id: Id, desired: Option<Resolved>)
      modifies this`deployments, this`log
      ensures deployments == if desired.None? then old(deployments) - {id}
                             else old(deployments)[id := NextEntry(old(deployments), id, desired.value)]
      ensures log == old(log) + ActionsOn(old(deployments), deployments, id)
    {
      if desired.None? {
        if id in deployments {
          log := log + [Undeploy(id, deployments[id].digest)];
          deployments := deployments - {id};
        }
        return;
      }
      var next := EntryFor(deployments, id, desired.value);
      if id !in deployments {
        log := log + [Deploy(id, desired.value.digest)];
        deployments := deployments[id := next];
      } else if deployments[id].digest != desired.value.digest {
        log := log + [Update(id, deployments[id].digest, desired.value.digest)];
        deployments := deployments[id := next];
      }
    }
  }

  predicate Agree(a: map<Id, CacheEntry>, b: map<Id, CacheEntry>, id: Id) {
    (id in a <==> id in b) && (id in a ==> a[id] == b[id])
  }

  lemma SameMap(a: map<Id, CacheEntry>, b: map<Id, CacheEntry>)
    requires forall id :: Agree(a, b, id)
    ensures a == b
  {
    forall id ensures (id in a <==> id in b) && (id in a ==> a[id] == b[id]) { assert Agree(a, b, id); }
  }

  /** A planned id is dropped or gets its next entry; any other stays. */
  function Walked(cache: map<Id, CacheEntry>, plan: map<Id, Option<Resolved>>): map<Id, CacheEntry> {
    map id | id in cache.Keys + plan.Keys && (id in plan ==> plan[id].Some?) ::
      if id in plan then NextEntry(cache, id, plan[id].value) else cache[id]
  }

  /** The action, if any, that one id calls for. */
  function ActionsOn(before: map<Id, CacheEntry>, after: map<Id, CacheEntry>, id: Id): seq<Action> {
    if id in before && id !in after then [Undeploy(id, before[id].digest)]
    else if id !in before && id in after then [Deploy(id, after[id].digest)]
    else if id in before && before[id].digest != after[id].digest then [Update(id, before[id].digest, after[id].digest)]
    else []
  }

  /** A change of one id that had not been touched adds its action to the log and disturbs no other. */
  lemma StillLogged(before: map<Id, CacheEntry>, cache: map<Id, CacheEntry>, next: map<Id, CacheEntry>,
                    log0: seq<Action>, log1: seq<Action>, log2: seq<Action>, id: Id)
    requires log0 <= log1 && log2 == log1 + ActionsOn(cache, next, id)
    requires NoDuplicates(log1[|log0|..]) && forall a :: a in log1[|log0|..] <==> Leads(before, cache, a)
    requires Agree(cache, before, id) && forall other :: other != id ==> Agree(cache, next, other)
    ensures log0 <= log2 && NoDuplicates(log2[|log0|..])
    ensures forall a :: a in log2[|log0|..] <==> Leads(before, next, a)
  {
    var old1, more := log1[|log0|..], ActionsOn(cache, next, id);
    assert log2[|log0|..] == old1 + more;
    forall a ensures a in old1 + more <==> Leads(before, next, a) {
      assert a in old1 <==> Leads(before, cache, a);
      assert a.id != id ==> Agree(cache, next, a.id);
    }
    forall k | 0 <= k < |old1| ensures old1[k] !in more { assert Leads(before, cache, old1[k]); }
  }

  method FetchBundleOnce(net: Network, manifest: Manifest) returns (entries: Option<map<Id, Resolved>>)
    ensures entries == FetchedBundle(net, manifest)
  {
    if manifest.bundle.None? { return Some(map[]); }
    if net.bundle.None? { return None; }
    var raw := net.bundle.value;
    if Sha256(raw) != manifest.bundle.value { return None; }
    entries := ProcessBundleArchive(raw, manifest.listings);
  }

  /** Index the listings by digest, then keep each readable YAML file whose digest is listed. */
  method ProcessBundleArchive(raw: Bytes, listings: seq<Listing>) returns (entries: Option<map<Id, Resolved>>)
    ensures entries == ProcessBundle(raw, listings)
    ensures entries.Some? <==> raw.TarGz? && !raw.truncated
    ensures entries.Some? ==> SingleResults(listings, entries.value)
    ensures entries.Some? && UniqueIds(listings) && B.UniqueDigests(listings) ==>
      forall l :: l in listings ==> (l.id in entries.value <==> B.InArchive(raw.entries, l.digest))
  {
    if !raw.TarGz? { return None; }
    var index: map<Digest, Id> := map[];
    for i := 0 to |listings|
      invariant index == DigestIndex(listings[..i])
    {
      assert listings[..i + 1][..i] == listings[..i];
      index := index[listings[i].digest := listings[i].id];
    }
    assert listings[..|listings|] == listings;
    var found: map<Id, Resolved> := map[];
    for i := 0 to |raw.entries|
      invariant found == Unpack(raw.entries[..i], index)
    {
      var e := raw.entries[i];
      assert raw.entries[..i + 1][..i] == raw.entries[..i];
      if e.Regular? && IsYaml(e.name) && Sha256(e.content) in index && Parse(e.content).Some? {
        found := found[index[Sha256(e.content)] := Resolved(Sha256(e.content), Parse(e.content))];
      }
    }
    assert raw.entries[..|raw.entries|] == raw.entries;
    UnpackSound(raw.entries, listings);
    if UniqueIds(listings) && B.UniqueDigests(listings) {
      forall l | l in listings ensures l.id in found <==> B.InArchive(raw.entries, l.digest) {
        B.UnpackIff(raw.entries, listings, l);
      }
    }
    if raw.truncated { return None; }
    return Some(found);
  }
}
