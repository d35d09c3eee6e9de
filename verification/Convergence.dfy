/** Server and client together: any interleaving of edits and polls, where a poll may be answered
    with any manifest the server has ever served (a cache or a replica may lag). */
module Convergence {
  import opened Prelude
  import opened Content
  import opened ServerModel
  import opened ServerProofs
  import C = ClientModel
  import P = ClientProofs
  import B = Bundles
  import F = Fetching
  import D = Downloads

  /** A poll is answered as of the i-th request so far; the network answers the downloads. */
  datatype Event = Serve(request: Request) | Poll(asOf: nat, net: C.Network)

  datatype World = World(requests: seq<Request>, client: C.State)

  /** The manifest endpoint: 304 when the client already holds the ETag of this manifest. */
  function Answer(m: Manifest, etag: Option<Manifest>): C.Response {
    if etag == Some(m) then C.NotModified else C.Fresh(m, Some(m))
  }

  function ManifestAt(t: Tables, w: World, device: Id, i: nat): Manifest
    requires i <= |w.requests|
  {
    Served(Run(t, w.requests[..i]), device)
  }

  function Next(t: Tables, device: Id, w: World, e: Event): World {
    match e
    case Serve(r) => w.(requests := w.requests + [r])
    case Poll(i, net) =>
      if i > |w.requests| then w
      else w.(client := C.Polled(w.client, Answer(ManifestAt(t, w, device, i), w.client.etag), net))
  }

  function Execute(t: Tables, device: Id, events: seq<Event>): World {
    if events == [] then World([], C.FRESH_CLIENT)
    else Next(t, device, Execute(t, device, events[..|events| - 1]), events[|events| - 1])
  }

  // ---- The client always stands at a manifest that was served -----------------------

  ghost predicate StandsAt(t: Tables, w: World, device: Id, a: nat) {
    && a <= |w.requests|
    && w.client.version == ManifestAt(t, w, device, a).version
    && w.client.etag == Some(ManifestAt(t, w, device, a))
  }

  ghost predicate Anchored(t: Tables, w: World, device: Id) {
    w.client == C.FRESH_CLIENT || exists a: nat :: StandsAt(t, w, device, a)
  }

  lemma PastManifest(t: Tables, w: World, device: Id, r: Request, i: nat)
    requires i <= |w.requests|
    ensures ManifestAt(t, w.(requests := w.requests + [r]), device, i) == ManifestAt(t, w, device, i)
  {
    assert (w.requests + [r])[..i] == w.requests[..i];
  }

  lemma {:induction false} AlwaysAnchored(t: Tables, device: Id, events: seq<Event>)
    ensures Anchored(t, Execute(t, device, events), device)
  {
    if events != [] {
      var w, e := Execute(t, device, events[..|events| - 1]), events[|events| - 1];
      AlwaysAnchored(t, device, events[..|events| - 1]);
      NextAnchored(t, device, w, e);
    }
  }

  /** A poll either leaves the client alone or leaves it at the manifest of the answer. */
  lemma PolledHolds(st: C.State, m: Manifest, net: C.Network)
    ensures var after := C.Polled(st, Answer(m, st.etag), net);
            after == st || (after.version == m.version && after.etag == Some(m))
  {
  }

  lemma ServeAnchored(t: Tables, device: Id, w: World, r: Request)
    requires Anchored(t, w, device)
    ensures Anchored(t, w.(requests := w.requests + [r]), device)
  {
    if w.client != C.FRESH_CLIENT {
      var a: nat :| StandsAt(t, w, device, a);
      PastManifest(t, w, device, r, a);
      assert StandsAt(t, w.(requests := w.requests + [r]), device, a);
    }
  }

  lemma ClientAnchored(t: Tables, device: Id, w: World, i: nat, st: C.State)
    requires Anchored(t, w, device) && i <= |w.requests|
    requires var m := ManifestAt(t, w, device, i); st == w.client || (st.version == m.version && st.etag == Some(m))
    ensures Anchored(t, w.(client := st), device)
  {
    if st != w.client { assert StandsAt(t, w.(client := st), device, i); }
  }

  lemma NextAnchored(t: Tables, device: Id, w: World, e: Event)
    requires Anchored(t, w, device)
    ensures Anchored(t, Next(t, device, w, e), device)
  {
    if e.Serve? {
      ServeAnchored(t, device, w, e.request);
    } else if e.asOf <= |w.requests| {
      var m := ManifestAt(t, w, device, e.asOf);
      PolledHolds(w.client, m, e.net);
      ClientAnchored(t, device, w, e.asOf, C.Polled(w.client, Answer(m, w.client.etag), e.net));
    }
  }

  // ---- The version filter drops only what is old -----------------------------------

  /** A manifest the client drops is never newer than the one it holds: it was served no later, or
      it is the very same manifest. */
  lemma DroppedIsOld(t: Tables, device: Id, events: seq<Event>, i: nat)
    requires Valid(t)
    requires i <= |Execute(t, device, events).requests|
    requires var w := Execute(t, device, events);
             w.client != C.FRESH_CLIENT && ManifestAt(t, w, device, i).version <= w.client.version
    ensures var w := Execute(t, device, events);
      exists a: nat :: StandsAt(t, w, device, a) &&
        (i <= a || ManifestAt(t, w, device, i) == ManifestAt(t, w, device, a))
  {
    var w := Execute(t, device, events);
    AlwaysAnchored(t, device, events);
    var a: nat :| StandsAt(t, w, device, a);
    if a < i { Ordered(t, w, device, a, i); }
  }

  lemma Ordered(t: Tables, w: World, device: Id, a: nat, i: nat)
    requires Valid(t) && a <= i <= |w.requests|
    ensures Follows(ManifestAt(t, w, device, a), ManifestAt(t, w, device, i))
  {
    assert w.requests[..a] + w.requests[a..i] == w.requests[..i];
    VersionNamesManifest(t, w.requests[..a], w.requests[a..i], device);
  }

  /** Any poll answered with the current manifest leaves the client holding exactly that manifest,
      whatever happened before and however the downloads go. */
  lemma PollCatchesUp(t: Tables, device: Id, events: seq<Event>, net: C.Network)
    requires Valid(t)
    ensures var w := Execute(t, device, events);
            var now := |w.requests|;
            StandsAt(t, Next(t, device, w, Poll(now, net)), device, now)
  {
    var w := Execute(t, device, events);
    AlwaysAnchored(t, device, events);
    CatchesUp(t, device, w, net);
  }

  lemma CatchesUp(t: Tables, device: Id, w: World, net: C.Network)
    requires Valid(t) && Anchored(t, w, device)
    ensures StandsAt(t, Next(t, device, w, Poll(|w.requests|, net)), device, |w.requests|)
  {
    var now := |w.requests|;
    var m := ManifestAt(t, w, device, now);
    if w.client == C.FRESH_CLIENT {
      RunValid(t, w.requests[..now]);
      VersionOneIsEmpty(Run(t, w.requests[..now]), device);
    } else {
      var a: nat :| StandsAt(t, w, device, a);
      Ordered(t, w, device, a, now);
    }
    PolledStandsAt(w.client, m, net);
  }

  /** Answered with a manifest that is theirs or newer, a client ends up holding it. */
  lemma PolledStandsAt(st: C.State, m: Manifest, net: C.Network)
    requires (st == C.FRESH_CLIENT && m.version >= 1) ||
             (st.etag.Some? && st.version == st.etag.value.version && Follows(st.etag.value, m))
    ensures var after := C.Polled(st, Answer(m, st.etag), net); after.version == m.version && after.etag == Some(m)
  {
  }

  /** A manifest lists no id twice, so over any run, with any network, every cached entry names the
      application of the descriptor its digest stands for. */
  lemma {:induction false} CacheIsTruthful(t: Tables, device: Id, events: seq<Event>)
    requires Valid(t)
    ensures P.AllTruthful(Execute(t, device, events).client.deployments)
  {
    if events != [] {
      var w, e := Execute(t, device, events[..|events| - 1]), events[|events| - 1];
      CacheIsTruthful(t, device, events[..|events| - 1]);
      NextKeepsTruth(t, device, w, e);
    }
  }

  lemma ServedIdsUnique(t: Tables, device: Id)
    requires Valid(t)
    ensures P.UniqueIds(Served(t, device).listings)
  {
    LoadIsRows(t, device);
  }

  lemma NextKeepsTruth(t: Tables, device: Id, w: World, e: Event)
    requires Valid(t) && P.AllTruthful(w.client.deployments)
    ensures P.AllTruthful(Next(t, device, w, e).client.deployments)
  {
    if e.Poll? && e.asOf <= |w.requests| {
      RunValid(t, w.requests[..e.asOf]);
      ServedIdsUnique(Run(t, w.requests[..e.asOf]), device);
      P.PollKeepsTruth(w.client, Answer(ManifestAt(t, w, device, e.asOf), w.client.etag), e.net);
    }
  }

  // ---- The client runs what the server asks for ------------------------------------

  lemma {:induction false} ListedIsRows(list: seq<Deployment>)
    ensures D.Listed(ListingsOf(list)) == RowsFrom(list)
  {
    if list != [] {
      ListedIsRows(list[..|list| - 1]);
      assert ListingsOf(list)[..|list| - 1] == ListingsOf(list[..|list| - 1]);
    }
  }

  lemma ServedIsRows(t: Tables, device: Id)
    requires Valid(t)
    ensures D.Listed(Served(t, device).listings) == RowsOf(t, device)
  {
    assert ValidDevice(t, device);
    LoadIsRows(t, device);
    ListedIsRows(Load(t, device));
  }

  /** A poll that was accepted: the world it met, the request it was answered as of, and its network. */
  datatype Adoption = Adoption(world: World, asOf: nat, net: C.Network)

  predicate Adopts(t: Tables, device: Id, w: World, e: Event) {
    e.Poll? && e.asOf <= |w.requests| &&
    C.Accepts(w.client, Answer(ManifestAt(t, w, device, e.asOf), w.client.etag))
  }

  /** The last poll that was accepted. */
  function LastAdoption(t: Tables, device: Id, events: seq<Event>): Option<Adoption> {
    if events == [] then None
    else
      var w, e := Execute(t, device, events[..|events| - 1]), events[|events| - 1];
      if Adopts(t, device, w, e) then Some(Adoption(w, e.asOf, e.net))
      else LastAdoption(t, device, events[..|events| - 1])
  }

  /** Every listing of the adopted manifest was cached, or came in the bundle or by itself. */
  predicate DownloadsHad(t: Tables, device: Id, a: Adoption)
    requires a.asOf <= |a.world.requests|
  {
    D.AllHad(a.world.client, ManifestAt(t, a.world, device, a.asOf), a.net)
  }

  /** The client is what its last accepted poll made of it. */
  ghost predicate MadeBy(t: Tables, device: Id, w: World, a: Adoption) {
    && a.asOf <= |a.world.requests| <= |w.requests|
    && a.world.requests == w.requests[..|a.world.requests|]
    && (var r := Answer(ManifestAt(t, a.world, device, a.asOf), a.world.client.etag);
        C.Accepts(a.world.client, r) && w.client == C.Polled(a.world.client, r, a.net))
  }

  lemma NextMadeBy(t: Tables, device: Id, w: World, e: Event, a: Adoption)
    requires MadeBy(t, device, w, a) && !Adopts(t, device, w, e)
    ensures MadeBy(t, device, Next(t, device, w, e), a)
  {
    if e.Serve? { assert (w.requests + [e.request])[..|a.world.requests|] == w.requests[..|a.world.requests|]; }
  }

  lemma AdoptedMadeBy(t: Tables, device: Id, w: World, e: Event)
    requires Adopts(t, device, w, e)
    ensures MadeBy(t, device, Next(t, device, w, e), Adoption(w, e.asOf, e.net))
  {
    assert w.requests[..|w.requests|] == w.requests;
  }

  lemma {:induction false} AlwaysMadeBy(t: Tables, device: Id, events: seq<Event>)
    ensures var a, w := LastAdoption(t, device, events), Execute(t, device, events);
            if a.None? then w.client == C.FRESH_CLIENT else MadeBy(t, device, w, a.value)
  {
    if events != [] {
      var front, e := events[..|events| - 1], events[|events| - 1];
      var w := Execute(t, device, front);
      AlwaysMadeBy(t, device, front);
      if Adopts(t, device, w, e) {
        AdoptedMadeBy(t, device, w, e);
      } else if LastAdoption(t, device, front).Some? {
        NextMadeBy(t, device, w, e, LastAdoption(t, device, front).value);
      }
    }
  }

  /** A client that holds the current manifest runs the rows exactly if its adoption had its downloads. */
  lemma HoldsThenRunsIff(t: Tables, device: Id, w: World, a: Adoption)
    requires Valid(t) && MadeBy(t, device, w, a) && StandsAt(t, w, device, |w.requests|)
    ensures D.Digests(w.client.deployments) == RowsOf(Run(t, w.requests), device) <==> DownloadsHad(t, device, a)
  {
    var m := ManifestAt(t, a.world, device, a.asOf);
    RunValid(t, a.world.requests[..a.asOf]);
    ServedIdsUnique(Run(t, a.world.requests[..a.asOf]), device);
    D.AppliedIff(a.world.client, C.Fresh(m, Some(m)), a.net);
    assert w.requests[..|w.requests|] == w.requests;
    assert m == ManifestAt(t, w, device, |w.requests|);
    RunValid(t, w.requests);
    ServedIsRows(Run(t, w.requests), device);
  }

  /** Convergence: after any history of edits and possibly stale polls, over any networks, one poll of
      the current manifest leaves the client running exactly the server's rows if and only if the one
      poll that adopted that manifest, now or earlier, had its downloads. */
  lemma ConvergesIff(t: Tables, device: Id, events: seq<Event>, net: C.Network)
    requires Valid(t)
    ensures var w := Execute(t, device, events);
      var last := Poll(|w.requests|, net);
      var a := LastAdoption(t, device, events + [last]);
      && a.Some? && a.value.asOf <= |a.value.world.requests|
      && (D.Digests(Next(t, device, w, last).client.deployments) == RowsOf(Run(t, w.requests), device) <==>
          DownloadsHad(t, device, a.value))
  {
    var w := Execute(t, device, events);
    var last := Poll(|w.requests|, net);
    var all := events + [last];
    assert all[..|events|] == events && Execute(t, device, all) == Next(t, device, w, last);
    PollCatchesUp(t, device, events, net);
    AlwaysMadeBy(t, device, all);
    HoldsThenRunsIff(t, device, Next(t, device, w, last), LastAdoption(t, device, all).value);
  }

  // ---- Downloads answered by the server --------------------------------------------

  /** Descriptors are downloaded from the server as it is now; the bundle may be anything. */
  ghost predicate FromServer(t: Tables, w: World, device: Id, net: C.Network) {
    forall id, digest :: net.fetch(id, digest) ==
      var got := GetDeployment(Run(t, w.requests), device, digest);
      if got.Success? then Some(got.value) else None
  }

  /** A manifest of the past can still be resolved from the server of the present. */
  lemma PastIsResolvable(t: Tables, w: World, device: Id, i: nat, net: C.Network)
    requires Valid(t) && device in t.devices && i <= |w.requests| && FromServer(t, w, device, net)
    ensures D.AllHad(w.client, ManifestAt(t, w, device, i), net)
  {
    assert w.requests[..i] + w.requests[i..] == w.requests;
    FetchableForever(t, w.requests[..i], w.requests[i..], device);
    AnsweredIsHad(w.client, ManifestAt(t, w, device, i), net, Run(t, w.requests), device);
  }

  lemma AnsweredIsHad(st: C.State, m: Manifest, net: C.Network, t: Tables, device: Id)
    requires forall l :: l in m.listings ==>
      var got := GetDeployment(t, device, l.digest);
      && got.Success? && Sha256(got.value) == l.digest && got.value.Yaml?
      && net.fetch(l.id, l.digest) == Some(got.value)
    ensures D.AllHad(st, m, net)
  {
  }

  /** So it converges if the server answered the downloads of that one poll; what any other poll could
      not get does not matter. */
  lemma Converges(t: Tables, device: Id, events: seq<Event>, net: C.Network)
    requires Valid(t) && device in t.devices
    requires var w := Execute(t, device, events);
      var a := LastAdoption(t, device, events + [Poll(|w.requests|, net)]);
      a.Some? ==> FromServer(t, a.value.world, device, a.value.net)
    ensures var w := Execute(t, device, events);
      D.Digests(Next(t, device, w, Poll(|w.requests|, net)).client.deployments) == RowsOf(Run(t, w.requests), device)
  {
    ConvergesIff(t, device, events, net);
    var w := Execute(t, device, events);
    var a := LastAdoption(t, device, events + [Poll(|w.requests|, net)]).value;
    PastIsResolvable(t, a.world, device, a.asOf, a.net);
  }

  // ---- First sync through the server's bundle --------------------------------------

  /** Descriptors carry their ids, so a manifest lists no digest twice. */
  lemma ServedDigestsUnique(t: Tables, device: Id)
    requires Valid(t)
    ensures B.UniqueDigests(Served(t, device).listings)
  {
    var m := Served(t, device);
    ServedIdsUnique(t, device);
    forall i, j | 0 <= i < j < |m.listings| ensures m.listings[i].digest != m.listings[j].digest {
      ListedIsRow(t, device, m.listings[i]);
      ListedIsRow(t, device, m.listings[j]);
      RowCarriesId(t, device, m.listings[i].id);
      RowCarriesId(t, device, m.listings[j].id);
    }
  }

  lemma OwnBundleCarries(t: Tables, device: Id, archive: Bytes, l: Listing)
    requires Valid(t) && Served(t, device).bundle == Some(Sha256(archive)) && l in Served(t, device).listings
    ensures archive.TarGz? && !archive.truncated && B.InArchive(archive.entries, l.digest)
  {
    BundleHoldsListed(t, device, archive);
    ListedIsRow(t, device, l);
    RowCarriesId(t, device, l.id);
    var e := Regular(l.id + ".yaml", l.digest.content);
    var n := |l.id|;
    assert forall i :: 0 <= i < 5 ==> e.name[n + i] == ".yaml"[i];
    assert B.EndsIn(e.name, ".yaml");
    assert B.Carries(e, l.digest);
  }

  /** A first sync that gets the bundle the manifest names runs exactly the server's rows, even if no
      deployment can be fetched on its own. */
  lemma FirstSyncByBundle(t: Tables, device: Id, st: C.State, net: C.Network)
    requires Valid(t) && !st.bundleFetched && st.deployments == map[] && st.version < Served(t, device).version
    requires var m := Served(t, device);
      m.bundle.Some? ==> net.bundle.Some? && GetBundle(t, device, m.bundle.value) == Success(net.bundle.value)
    ensures var m := Served(t, device);
      D.Digests(C.Polled(st, C.Fresh(m, Some(m)), net).deployments) == RowsOf(t, device)
  {
    var m := Served(t, device);
    ServedIdsUnique(t, device);
    ServedDigestsUnique(t, device);
    ListedIsStored(t, device);
    F.NoBundleIff(t, device);
    forall l | l in m.listings ensures D.Had(st, m, net, l) {
      OwnBundleCarries(t, device, net.bundle.value, l);
      BundleHoldsListed(t, device, net.bundle.value);
      B.SeedIff(st, net, m, l);
    }
    D.AppliedIff(st, C.Fresh(m, Some(m)), net);
    ServedIsRows(t, device);
  }
}
