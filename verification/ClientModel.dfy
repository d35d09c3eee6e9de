/** The desired-state client on values: one poll, from the manifest response to the new cache. */
module ClientModel {
  import opened Prelude
  import opened Content

  type Id = string

  datatype CacheEntry = CacheEntry(digest: Digest, applicationId: string, name: string)

  datatype State = State(etag: Option<Manifest>, version: nat, deployments: map<Id, CacheEntry>, bundleFetched: bool)

  const FRESH_CLIENT := State(None, 0, map[], false)

  /** A resolved deployment; no descriptor means it was served from the cache. */
  datatype Resolved = Resolved(digest: Digest, descriptor: Option<Descriptor>)

  datatype Response = Unavailable | NotModified | Fresh(manifest: Manifest, etag: Option<Manifest>)

  /** The bodies, if any, that the bundle URL and the deployment URLs answer with. */
  datatype Network = Network(bundle: Option<Bytes>, fetch: (Id, Digest) -> Option<Bytes>)

  // ---- Single descriptors ----------------------------------------------------------

  function Fetched(net: Network, l: Listing): Option<Descriptor> {
    match net.fetch(l.id, l.digest)
    case None => None
    case Some(body) => if Sha256(body) == l.digest then Parse(body) else None
  }

  // ---- The bundle ------------------------------------------------------------------

  /** The part of a file name from its last dot, unless a slash follows that dot. */
  function Extension(name: string): string {
    if name == "" || name[|name| - 1] == '/' then ""
    else if name[|name| - 1] == '.' then "."
    else
      var rest := Extension(name[..|name| - 1]);
      if rest == "" then "" else rest + [name[|name| - 1]]
  }

  function Lower(c: char): char {
    if 'A' <= c <= 'Z' then (c as int + 32) as char else c
  }

  function ToLower(s: string): string { seq(|s|, i requires 0 <= i < |s| => Lower(s[i])) }

  predicate IsYaml(name: string) { ToLower(Extension(name)) in {".yaml", ".yml"} }

  /** From digest to deployment; a later listing wins. */
  function DigestIndex(listings: seq<Listing>): map<Digest, Id> {
    if listings == [] then map[]
    else DigestIndex(listings[..|listings| - 1])[listings[|listings| - 1].digest := listings[|listings| - 1].id]
  }

  predicate Usable(e: Entry, index: map<Digest, Id>) {
    e.Regular? && IsYaml(e.name) && Sha256(e.content) in index && Parse(e.content).Some?
  }

  function Unpack(entries: seq<Entry>, index: map<Digest, Id>): map<Id, Resolved> {
    if entries == [] then map[]
    else
      var rest, e := Unpack(entries[..|entries| - 1], index), entries[|entries| - 1];
      if Usable(e, index) then rest[index[Sha256(e.content)] := Resolved(Sha256(e.content), Parse(e.content))] else rest
  }

  function ProcessBundle(raw: Bytes, listings: seq<Listing>): Option<map<Id, Resolved>> {
    if raw.TarGz? && !raw.truncated then Some(Unpack(raw.entries, DigestIndex(listings))) else None
  }

  /** Nothing to fetch counts as fetched. */
  function FetchedBundle(net: Network, m: Manifest): Option<map<Id, Resolved>> {
    if m.bundle.None? then Some(map[])
    else if net.bundle.None? || Sha256(net.bundle.value) != m.bundle.value then None
    else ProcessBundle(net.bundle.value, m.listings)
  }

  // ---- Resolving -------------------------------------------------------------------

  predicate FirstSync(st: State) { !st.bundleFetched && st.deployments == map[] }

  function Seed(st: State, net: Network, m: Manifest): map<Id, Resolved> {
    if FirstSync(st) && FetchedBundle(net, m).Some? then FetchedBundle(net, m).value else map[]
  }

  function ResolveOne(
    cache: map<Id, CacheEntry>, net: Network, resolved: map<Id, Resolved>, l: Listing): map<Id, Resolved> {
    if !l.digest.Sha256? then resolved
    else if l.id in resolved then resolved[l.id := resolved[l.id].(digest := l.digest)]
    else if l.id in cache && cache[l.id].digest == l.digest then resolved[l.id := Resolved(l.digest, None)]
    else
      var got := Fetched(net, l);
      if got.Some? then resolved[l.id := Resolved(l.digest, got)] else resolved
  }

  function ResolveAll(
    cache: map<Id, CacheEntry>, net: Network, seed: map<Id, Resolved>, listings: seq<Listing>): map<Id, Resolved> {
    if listings == [] then seed
    else ResolveOne(cache, net, ResolveAll(cache, net, seed, listings[..|listings| - 1]), listings[|listings| - 1])
  }

  // ---- Reconciling -----------------------------------------------------------------

  function IdsListed(listings: seq<Listing>): set<Id> { set l | l in listings :: l.id }

  function EntryFor(cache: map<Id, CacheEntry>, id: Id, r: Resolved): CacheEntry {
    if r.descriptor.Some? then CacheEntry(r.digest, r.descriptor.value.applicationId, r.descriptor.value.name)
    else if id in cache then CacheEntry(r.digest, cache[id].applicationId, cache[id].name)
    else CacheEntry(r.digest, "", "")
  }

  /** An entry is rewritten only when its digest changes. */
  function NextEntry(cache: map<Id, CacheEntry>, id: Id, r: Resolved): CacheEntry {
    if id in cache && cache[id].digest == r.digest then cache[id] else EntryFor(cache, id, r)
  }

  function Reconciled(cache: map<Id, CacheEntry>, desired: set<Id>, resolved: map<Id, Resolved>): map<Id, CacheEntry> {
    map id | id in cache.Keys + resolved.Keys && (id in resolved || id in desired) ::
      if id in resolved then NextEntry(cache, id, resolved[id]) else cache[id]
  }

  datatype Action =
    | Deploy(id: Id, digest: Digest)
    | Update(id: Id, before: Digest, after: Digest)
    | Undeploy(id: Id, digest: Digest)

  /** The actions that lead from one cache to another. */
  predicate Leads(before: map<Id, CacheEntry>, after: map<Id, CacheEntry>, a: Action) {
    match a
    case Deploy(id, digest) => id !in before && id in after && after[id].digest == digest
    case Update(id, was, now) =>
      id in before && id in after && before[id].digest == was && after[id].digest == now && was != now
    case Undeploy(id, digest) => id in before && id !in after && before[id].digest == digest
  }

  // ---- One poll --------------------------------------------------------------------

  predicate Accepts(st: State, r: Response) { r.Fresh? && r.manifest.version > st.version }

  function ResolvedBy(st: State, m: Manifest, net: Network): map<Id, Resolved> {
    ResolveAll(st.deployments, net, Seed(st, net, m), m.listings)
  }

  function Polled(st: State, r: Response, net: Network): State {
    if !Accepts(st, r) then st
    else State(
      r.etag,
      r.manifest.version,
      Reconciled(st.deployments, IdsListed(r.manifest.listings), ResolvedBy(st, r.manifest, net)),
      st.bundleFetched || (FirstSync(st) && FetchedBundle(net, r.manifest).Some?))
  }
}
