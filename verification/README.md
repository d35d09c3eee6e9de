# Margo specification enhancements: verified model

This project models two protocols of the repository and the small stateful helpers around them,
and proves what holds over all their runs.

**Desired state by manifest.** A server keeps a list of deployments for each device. Every edit
rebuilds an archive of the descriptors, raises the manifest version when the archive's digest
changes, and persists a diff together with content-addressed blobs. A client polls the manifest,
drops versions that do not increase, resolves descriptors from a bundle, its cache or single
downloads, and reconciles its local map. The client's filter is sound only because of a server
invariant over whole runs. `Downloads` says exactly when a poll applies its manifest and what
becomes of a listing it could not get; `Convergence` joins the two sides.

**Identity lifecycle.** The Margo identity service binds enrollment subjects to logical device
identities, issues and revokes SVIDs, publishes a revocation list and redeems tickets. A request
reads the tables, decides and performs a list of writes; a run may stop any request after any of
its writes. Enrollment tokens are modelled apart, statement by statement, with any interleaving.
`RevocationReach` joins the service with a device agent, from a revocation to the device's latch.

**Helpers.** The device agent's revocation latch across conditional requests, crashes and restarts;
the sliding-window limiter; the JWT cache; the replay store; the serial generator under concurrent
calls; the If-None-Match scanner; the bundle-map writer and reader; and the text order of stored
timestamps.

Each component has a model on values (`…Model`, or the first part of a module), its proofs, and,
where the repository changes things in place, classes and loops (`Server`, `Client`,
`IdentityService`, `TokenStore`, `LatchAgent`, and the classes inside the helper modules) whose
methods are proved to do what the model says. `dafny verify dfyconfig.toml` checks the project.

| module | content |
|---|---|
| `Text`, `Content`, `Prelude` | text order and sorting; descriptors, archives, digests; options and results |
| `ServerModel`, `ServerProofs`, `Server` | tables, edits and the persisted diff; what every run keeps; the running server |
| `ClientModel`, `ClientProofs`, `Client` | one poll on values; its outcome; the running client |
| `Fetching` | what the server answers to those who fetch, and what a bundle holds |
| `Bundles` | what the client takes from a bundle |
| `Downloads` | when an accepted poll is applied; polls that bring nothing newer; what is skipped |
| `Convergence` | server and client together, with stale answers |
| `IdentityModel`, `IdentityProofs`, `IdentityTheorems`, `IdentityService` | requests as programs of writes; the invariant; the results over runs; the running service |
| `IdentityEffects`, `IdentityOrigins` | when each request issues or refuses and what it leaves; where each row comes from |
| `EnrollmentTokens`, `TokenStore` | interleaved token statements; the running store and validator |
| `LatchModel`, `LatchAgent` | the revocation latch; the running manager |
| `RevocationReach` | service and device together |
| `RenewalLimiter`, `JwtCache`, `ReplayStore`, `Serials`, `IfNoneMatch`, `BundleMap`, `Timestamps` | the helpers |

## Assumptions

- SHA-256, YAML rendering, tar with gzip, JSON and base64 are free constructors: injective, and
  inverse to their readers. Archives may be truncated and hold directories or damaged entries, and
  texts may be laid out in ways other than the server's own.
- A manifest's ETag and a revocation list's ETag are digests of their bodies, so the body stands
  for its ETag.
- UUIDs, serials, clock readings, issuer outcomes, network answers and the order in which a query
  breaks ties are parameters; the theorems hold for all of them. Two premises are stated where
  they are used: clocks never go back, and the issuer does not repeat a serial (`Serials` says
  when that holds). A UUID drawn twice is not excluded.
- Times are whole seconds. `Timestamps` proves that the stored texts then compare as time does,
  and when they do not inside one second.
- Table keys and foreign keys are those of the two `schema.sql` files and of the ON CONFLICT clauses.
- Versions, counts and serials are unbounded; `SerialsFit` states the 64-bit bounds it needs.

## Where the code is not what it seems

- Repeating an update with an unchanged descriptor can raise the version: the archive follows the
  order of edits, a reload the order of ids (`IdenticalUpdateMayBump`, with the exact condition in
  `IdenticalUpdateKeepsVersionIff`). So equal versions mean equal content, not the converse.
- The specification text (completed/sup_desired_state_via_manifest_api.md, lines 149 and 255) asks a
  client to abort on an unsupported digest or on content of the wrong digest; the code passes over
  that deployment, and the model follows the code. A poll aborts exactly when its answer is not
  newer (`AbortsIff`, with `NotHadIsSkipped` and `UnsupportedOnce`).
- A descriptor whose download failed is not fetched again under the same manifest (`LostOnce`,
  `LostStaysLost`): the state changes exactly when a newer manifest arrives (`UnchangedIff`), a poll
  applies its manifest exactly when it had every listing (`AppliedIff`), and the client converges
  exactly when the poll that adopted the current manifest had them (`ConvergesIff`).
- A bundle holds a file that the manifest does not list exactly after a deployment was created under
  an id that another one had (`BundleIsExactIff`); with UUIDs that are never drawn twice it does not.
- A replacement ticket for an identity that is not active is used up although the request is refused
  (`WastedTicket`).
- The agent stores a list's ETag before it looks for its own certificate. If the certificate file
  cannot be read or parsed at that moment, a revocation is hidden behind 304 answers (`HidesIff`,
  `HiddenStaysHidden`).
- The empty audience list and the list of one empty string share a cache key (`KeysAgreeIff`).
- A set without X.509 authorities can be written as a bundle map and not read back: the reader fails
  (`BuildThenExtract`).
- A negative RSA exponent loses its sign in the bundle map, except the least 64-bit integer
  (`KeyRoundTripIff`, `BuildThenExtract`).
- An identifier may succeed again at the very instant its recorded expiry is reached, and not
  before (`AtMostOnce`, `AgainIff`).

## Model

| member | source | states |
|---|---|---|
| `ServerProofs.VersionNamesManifest` | completed/sup_desired_state_via_manifest_api/pkg/wfm/core/service/deployment.go:175-204 | over any run of create, update and delete, from any valid state, a later manifest of a device is the earlier one or has a greater version; so equal versions mean equal manifests |
| `ServerProofs.StepVersions` | completed/sup_desired_state_via_manifest_api/pkg/wfm/adapter/persistence/sqlitedb/repository/deployment.go:39-104 | one request never lowers a version, changes nothing served while the version stands still, and leaves every other device's manifest and rows alone |
| `ServerProofs.VersionOneIsEmpty` | completed/sup_desired_state_via_manifest_api/pkg/wfm/adapter/transport/http/deployment.go:186-189 | every served version is at least 1, and version 1 is only the empty manifest without bundle of a device without rows |
| `ServerProofs.RunValid` | completed/sup_desired_state_via_manifest_api/pkg/wfm/adapter/persistence/sqlitedb/repository/deployment.go:23-110 | every reachable state is valid: blobs are keyed by their digest, rows name stored blobs, the stored bundle is the archive of a list with exactly the stored rows, versions start at 2 |
| `ServerProofs.BundleDeterminesList` | completed/sup_desired_state_via_manifest_api/pkg/wfm/core/service/deployment.go:146-173 | two honest lists with the same bundle digest are the same list in the same order |
| `ServerProofs.VersionKeptIff` | completed/sup_desired_state_via_manifest_api/pkg/wfm/core/service/deployment.go:197-203 | a successful request keeps the version exactly when it rebuilds the very list that was last archived |
| `ServerProofs.IdenticalUpdateKeepsVersionIff` | completed/sup_desired_state_via_manifest_api/pkg/wfm/core/service/deployment.go:68-103 | an update that repeats what is stored keeps the rows, and keeps the version exactly when the last archive was written in id order |
| `ServerProofs.IdenticalUpdateMayBump` | completed/sup_desired_state_via_manifest_api/pkg/wfm/adapter/persistence/sqlitedb/db/query.sql.go:86-92 | the failure, for any two ids: after creating one deployment and then one with a lesser id, repeating the update of the second raises the version by one although no row changes |
| `ServerProofs.RequestOnRows` | completed/sup_desired_state_via_manifest_api/pkg/wfm/core/service/deployment.go:32-120 | a create adds or overwrites exactly its row, an update overwrites exactly its row, a delete drops exactly its row; a request fails for its descriptor exactly if that is missing or, on an update, names another deployment than the path, else for its device exactly if unknown, else for its row exactly if missing, and then changes nothing |
| `ServerProofs.LoadIsRows` | completed/sup_desired_state_via_manifest_api/pkg/wfm/adapter/persistence/sqlitedb/repository/deployment.go:209-239 | a reload has exactly the rows of the device, in id order without repeats, each with the content its digest names |
| `ServerProofs.RunKeepsBlobs` | completed/sup_desired_state_via_manifest_api/pkg/wfm/adapter/persistence/sqlitedb/db/query.sql.go:152-182 | no run drops or changes a stored descriptor or bundle |
| `ServerProofs.FetchableForever` | completed/sup_desired_state_via_manifest_api/pkg/wfm/adapter/persistence/sqlitedb/repository/deployment.go:139-207 | every descriptor and bundle that any manifest ever named is answered at every later time with content of exactly that digest |
| `ServerProofs.BundleHoldsListed` | completed/sup_desired_state_via_manifest_api/pkg/wfm/core/service/deployment.go:175-198 | the bundle a manifest names is a whole archive that holds, under its id, every descriptor the manifest lists |
| `Fetching.BundleIsExactIff` | completed/sup_desired_state_via_manifest_api/pkg/wfm/core/service/deployment.go:175-198 | after a request the bundle holds nothing but what the manifest lists, exactly unless the request created a deployment under an id that another one had |
| `Fetching.NoBundleIff` | completed/sup_desired_state_via_manifest_api/pkg/wfm/core/service/deployment.go:185-195 | a manifest names no bundle exactly if it lists no deployment |
| `Fetching.ManifestIff` | completed/sup_desired_state_via_manifest_api/pkg/wfm/adapter/persistence/sqlitedb/repository/deployment.go:112-137 | over any run from a new database exactly the known devices are answered, with exactly their rows |
| `Fetching.FetchableIff` | completed/sup_desired_state_via_manifest_api/pkg/wfm/adapter/persistence/sqlitedb/repository/deployment.go:139-175 | over any run from a new database a descriptor can be fetched exactly by the known devices and exactly if a request that brought it has succeeded; each of the two errors exactly otherwise |
| `Fetching.BundleFetchableIff` | completed/sup_desired_state_via_manifest_api/pkg/wfm/adapter/persistence/sqlitedb/repository/deployment.go:177-207 | a bundle can be fetched exactly by the known devices and exactly if some device was once served a manifest that names it; each of the two errors exactly otherwise |
| `Server.DiffIsRows` | completed/sup_desired_state_via_manifest_api/pkg/wfm/adapter/persistence/sqlitedb/repository/deployment.go:47-104 | deleting the ids the list lacks and writing the ones it has leaves exactly the rows of the edited list |
| `Server.WorkingManifest.RebuildBundle` | completed/sup_desired_state_via_manifest_api/pkg/wfm/core/service/deployment.go:175-204 | the loop leaves the archive of the deployments in list order, its digest, and a version that grew by one exactly when that digest changed |
| `Server.WorkingManifest.Apply` | completed/sup_desired_state_via_manifest_api/pkg/wfm/core/service/deployment.go:89-119 | the search loop edits the first deployment with the id, or reports that there is none and changes nothing |
| `Server.UpsertDeployments` | completed/sup_desired_state_via_manifest_api/pkg/wfm/adapter/persistence/sqlitedb/repository/deployment.go:23-110 | the transaction leaves the tables of the specified upsert, or exactly as they were with the specified error |
| `Server.Persist` | completed/sup_desired_state_via_manifest_api/pkg/wfm/adapter/persistence/sqlitedb/repository/deployment.go:56-104 | deletes, blob inserts, manifest and row upserts together leave the specified tables, other devices untouched |
| `Server.DropMissing` | completed/sup_desired_state_via_manifest_api/pkg/wfm/adapter/persistence/sqlitedb/repository/deployment.go:56-69 | whatever order the ids are visited in, exactly the rows missing from the list are deleted |
| `Server.UpsertAll` | completed/sup_desired_state_via_manifest_api/pkg/wfm/adapter/persistence/sqlitedb/repository/deployment.go:90-104 | the loop writes the blob and the row of each deployment, a later one winning |
| `Server.CreateDeployment` | completed/sup_desired_state_via_manifest_api/pkg/wfm/core/service/deployment.go:32-66 | performs exactly one create step, keeps validity, returns the stored deployment with its patched descriptor and digest, or the error of the step |
| `Server.UpdateDeployment` | completed/sup_desired_state_via_manifest_api/pkg/wfm/core/service/deployment.go:68-103 | performs exactly one update step, keeps validity, and refuses for its descriptor exactly if that is missing or contradicts the path |
| `Server.DeleteDeployment` | completed/sup_desired_state_via_manifest_api/pkg/wfm/core/service/deployment.go:105-120 | performs exactly one delete step, keeps validity, and returns the error of the step |
| `ClientProofs.PollOutcome` | completed/sup_desired_state_via_manifest_api/cmd/wfm-client/main.go:140-208 | after an accepted poll an id is absent if not listed, has the digest last listed for it if resolved, and is as before if listed but not resolved; any other poll changes nothing |
| `ClientProofs.BundleIsShortcut` | completed/sup_desired_state_via_manifest_api/cmd/wfm-client/main.go:164-204 | with unique ids and descriptors that can be fetched, first sync through any bundle at all (whole, broken, unreadable or foreign entries, shared digests) leaves the deployments that single fetches leave |
| `ClientProofs.SeedDoesNotMatter` | completed/sup_desired_state_via_manifest_api/cmd/wfm-client/main.go:175-204 | resolving from seeds that hold only what single fetches give ends the same as resolving from nothing |
| `ClientProofs.UnpackSound` | completed/sup_desired_state_via_manifest_api/cmd/wfm-client/main.go:329-384 | whatever an archive holds, an unpacked entry is listed under its own digest and carries the descriptor of that digest |
| `Bundles.IsYamlIff` | completed/sup_desired_state_via_manifest_api/cmd/wfm-client/main.go:358-361 | a file counts as YAML exactly if its name ends in .yaml or .yml, in any case |
| `Bundles.UnpackIff` | completed/sup_desired_state_via_manifest_api/cmd/wfm-client/main.go:329-384 | of listings with unique ids and digests exactly those are unpacked for which the archive has a readable file with a YAML name and the listed content, which parses |
| `Bundles.SeedIff` | completed/sup_desired_state_via_manifest_api/cmd/wfm-client/main.go:164-173 | a listing is seeded exactly on a first sync, from a bundle of the named digest that came whole and carries it |
| `Bundles.BundleFetchedIff` | completed/sup_desired_state_via_manifest_api/cmd/wfm-client/main.go:164-173 | the bundle counts as fetched exactly from the first sync on that had nothing to fetch or got it whole |
| `ClientProofs.PollKeepsTruth` | completed/sup_desired_state_via_manifest_api/cmd/wfm-client/main.go:425-459 | whatever server and network answer, cached entries keep naming the application of the descriptor their digest stands for |
| `Client.Device.PollOnce` | completed/sup_desired_state_via_manifest_api/cmd/wfm-client/main.go:140-208 | the imperative poll is the specified one, and the actions it logs are, each once, exactly the difference between the old and the new cache |
| `Client.Device.ResolveListings` | completed/sup_desired_state_via_manifest_api/cmd/wfm-client/main.go:175-204 | the loop collects the listed ids and resolves each listing in order |
| `Client.Device.Resolve` | completed/sup_desired_state_via_manifest_api/cmd/wfm-client/main.go:179-203 | seeded entry, then cache, then single download, skipping unsupported digests |
| `Client.Device.ReconcileDeployments` | completed/sup_desired_state_via_manifest_api/cmd/wfm-client/main.go:386-404 | drops what is not desired, applies what is resolved, keeps the rest, and logs exactly that difference |
| `Client.Device.WalkPlan` | completed/sup_desired_state_via_manifest_api/cmd/wfm-client/main.go:401-403 | whatever order the plan map is walked in, the result and the set of logged actions are the same |
| `Client.Device.ApplyChange` | completed/sup_desired_state_via_manifest_api/cmd/wfm-client/main.go:425-459 | one id is dropped, added or rewritten, with the one action that describes it or none |
| `Client.FetchBundleOnce` | completed/sup_desired_state_via_manifest_api/cmd/wfm-client/main.go:291-327 | nothing to fetch counts as fetched; a missing download, a wrong digest or a broken archive does not |
| `Client.ProcessBundleArchive` | completed/sup_desired_state_via_manifest_api/cmd/wfm-client/main.go:329-384 | the two loops succeed exactly on a whole archive; every kept entry is what a single fetch would give, and of unique listings exactly those are kept that the archive carries |
| `Convergence.AlwaysAnchored` | completed/sup_desired_state_via_manifest_api/cmd/wfm-client/main.go:140-163 | over any interleaving of edits and polls, stale answers included, the client is fresh or holds the version and ETag of one manifest that was served |
| `Convergence.DroppedIsOld` | completed/sup_desired_state_via_manifest_api/cmd/wfm-client/main.go:149-153 | a manifest whose version does not exceed the client's was served no later than the one it holds, or is that very manifest |
| `Convergence.PollCatchesUp` | completed/sup_desired_state_via_manifest_api/cmd/wfm-client/main.go:149-163 | a poll answered with the current manifest always leaves the client holding exactly it, however its downloads go |
| `Convergence.CacheIsTruthful` | completed/sup_desired_state_via_manifest_api/cmd/wfm-client/main.go:425-459 | over any run with any network every cached entry names the application of the descriptor of its digest |
| `Downloads.AppliedIff` | completed/sup_desired_state_via_manifest_api/cmd/wfm-client/main.go:164-208 | an accepted poll of a manifest with unique ids leaves exactly its id-to-digest map if and only if each listing was cached with its digest, or is supported and was in the bundle or could be fetched |
| `Downloads.UnchangedIff` | completed/sup_desired_state_via_manifest_api/cmd/wfm-client/main.go:145-153 | any sequence of polls over any networks leaves the state as it was exactly when none of the answers is newer than the version held |
| `Downloads.LostStaysLost` | completed/sup_desired_state_via_manifest_api/cmd/wfm-client/main.go:197-202 | what an accepted poll could not get stays missing through all polls that bring no newer manifest, however well they could be answered |
| `Downloads.LostOnce` | completed/sup_desired_state_via_manifest_api/cmd/wfm-client/main.go:197-202 | the failure at an input: a new client whose one download is lost, corrupt or unreadable runs nothing after any number of polls of that manifest that would all be answered |
| `Downloads.AbortsIff` | completed/sup_desired_state_via_manifest_api/cmd/wfm-client/main.go:149-159 | a poll retains its state exactly when its answer is not newer, so an unsupported digest or corrupt content does not abort it as the specification asks |
| `Downloads.NotHadIsSkipped` | completed/sup_desired_state_via_manifest_api/cmd/wfm-client/main.go:176-204 | instead a listing that was not had is passed over: its id keeps the entry it had while the version moves on |
| `Downloads.UnsupportedIsNotHad` | completed/sup_desired_state_via_manifest_api/cmd/wfm-client/main.go:210-222 | a truthful cache never has an unsupported listing, so such a listing is always passed over |
| `Downloads.UnsupportedOnce` | completed/sup_desired_state_via_manifest_api/cmd/wfm-client/main.go:179-181 | the failure at an input: a new client accepts a manifest of one unsupported digest, moves to its version and ETag, and runs nothing |
| `Convergence.PastIsResolvable` | completed/sup_desired_state_via_manifest_api/pkg/wfm/adapter/persistence/sqlitedb/repository/deployment.go:139-175 | with downloads answered by the server of the present, every listing of a manifest of any past moment is had |
| `Convergence.ServedDigestsUnique` | completed/sup_desired_state_via_manifest_api/pkg/wfm/core/service/deployment.go:41-54 | descriptors carry their ids, so no manifest lists a digest twice |
| `Convergence.FirstSyncByBundle` | completed/sup_desired_state_via_manifest_api/cmd/wfm-client/main.go:164-208 | a first sync that gets the bundle the manifest names runs exactly the rows of the server, even if no deployment can be fetched on its own |
| `Convergence.AlwaysMadeBy` | completed/sup_desired_state_via_manifest_api/cmd/wfm-client/main.go:140-208 | over any history with any networks the client is fresh or exactly what its last accepted poll made of it |
| `Convergence.ConvergesIff` | completed/sup_desired_state_via_manifest_api/cmd/wfm-client/main.go:75-107 | after any history of edits and possibly stale polls, over any networks, one poll of the current manifest leaves the client running exactly the rows of the server if and only if the one poll that adopted that manifest had its downloads |
| `Convergence.Converges` | completed/sup_desired_state_via_manifest_api/cmd/wfm-client/main.go:75-107 | so it converges if the server answered the downloads of that one poll, whatever every other poll could not get |
| `IdentityProofs.WriteKeepsInv` | completed/miaf-poc/pkg/mis/store/issued_svids.go:24-115 | every single store write that a request may make keeps the whole invariant |
| `IdentityProofs.ProgramAllowed` | completed/miaf-poc/pkg/mis/identity/service.go:150-353 | every request, in every branch, makes only such writes, each in a state that allows it |
| `IdentityProofs.StopsInInv` | completed/miaf-poc/pkg/mis/identity/service.go:107-130 | so the invariant holds wherever a request stops between two writes |
| `IdentityProofs.RevokeEachEffect` | completed/miaf-poc/pkg/mis/identity/service.go:107-130 | revoking the priors one by one marks exactly them, adds exactly them to the list, and changes nothing else |
| `IdentityProofs.ReachableInv` | completed/miaf-poc/pkg/mis/identity/service.go:150-353 | in every state of every run, with requests stopping anywhere: one active binding for each identity, one key for all live SVIDs of a SPIFFE ID, none for an identity that is not active, every revoked and unexpired SVID listed |
| `IdentityTheorems.OneLiveKey` | completed/miaf-poc/pkg/mis/identity/service.go:177-299 | at any moment of any run all unrevoked, unexpired SVIDs of one SPIFFE ID carry the same key |
| `IdentityTheorems.LatestDoesNotMatter` | completed/miaf-poc/pkg/mis/store/issued_svids.go:118-151 | so whichever of several latest SVIDs the query picks, a request does exactly the same |
| `IdentityTheorems.RevokedIsPublished` | completed/miaf-poc/pkg/mis/store/revoked_svids.go:23-70 | wherever requests stopped, every revoked and unexpired SVID is published with its fingerprint |
| `IdentityTheorems.PublishedIsRevoked` | completed/miaf-poc/pkg/mis/store/revoked_svids.go:39-81 | with requests run to their end and pruning placed anywhere, the published list is exactly the set of revoked, unexpired SVIDs |
| `IdentityTheorems.RunOnward` | completed/miaf-poc/pkg/mis/store/identities.go:55-137 | between any two moments of a run a subject never moves to another identity nor revives, an identity changes only to revoked, a used ticket stays used, and an issued SVID stays what it is, revoked once it is |
| `IdentityTheorems.BindingsAreAccounted` | completed/miaf-poc/pkg/mis/store/identities.go:89-137 | each identity always has exactly one active binding, and no more retired ones than consumed tickets that name it |
| `IdentityTheorems.BoundUsesNoTicket` | completed/miaf-poc/pkg/mis/identity/service.go:150-175 | a request whose subject is bound consumes no ticket and moves no binding, whatever it presents |
| `IdentityTheorems.RetiredIsRefused` | completed/miaf-poc/pkg/mis/identity/service.go:160-175 | a subject that is retired at some moment of a run is refused without any write at every later moment |
| `IdentityTheorems.RebindNeedsTicket` | completed/miaf-poc/pkg/mis/identity/service.go:195-217 | a binding moves only for an unused, unexpired operator ticket that names an active identity, and only to the unbound subject presenting it |
| `IdentityTheorems.CreationNeedsPolicy` | completed/miaf-poc/pkg/mis/identity/service.go:177-193 | an identity is created only if policy allows it, for an unbound subject under an unused UUID, and what is issued then is a 201 for it |
| `IdentityTheorems.RotationNeedsPolicy` | completed/miaf-poc/pkg/mis/identity/service.go:229-299 | while a live SVID exists, one with another key is recorded only if policy allows rotation or the request is a replacement |
| `IdentityTheorems.RevokedAfter` | completed/miaf-poc/pkg/mis/identity/service.go:322-353 | a completed revocation leaves the identity revoked |
| `IdentityTheorems.InactiveGetsNothing` | completed/miaf-poc/pkg/mis/identity/jwtsvid.go:75-81 | no request of any kind issues an SVID or a JWT for an identity that exists and is not active |
| `IdentityTheorems.RevocationIsFinal` | completed/miaf-poc/pkg/mis/identity/service.go:322-353 | once a revocation completed, at every later moment of the run the identity is revoked, has no live SVID, and no request can issue for it |
| `IdentityEffects.EnrollIssuesIff` | completed/miaf-poc/pkg/mis/identity/service.go:150-257 | an enrollment is answered 201 exactly if it may create, 200 for the named identity exactly if it may replace or re-enroll, each if the issuer signs, in terms of bindings, tickets, statuses, policy, keys of all live SVIDs and clock |
| `IdentityEffects.EnrollRefusesIff` | completed/miaf-poc/pkg/mis/identity/service.go:150-257 | each other refusal of an enrollment comes exactly in its own case |
| `IdentityEffects.RenewIssuesIff` | completed/miaf-poc/pkg/mis/identity/service.go:269-299 | a renewal issues exactly for an active identity with a live SVID whose key is kept or may rotate, if the issuer signs; each refusal exactly in its own case |
| `IdentityEffects.ExchangeIff` | completed/miaf-poc/pkg/mis/identity/jwtsvid.go:75-81 | a JWT is issued exactly for an active identity |
| `IdentityEffects.CreateTicketIff` | completed/miaf-poc/pkg/mis/store/replacement_tickets.go:35-72 | a ticket is created exactly for a known identity, a positive lifetime and a new hash, and is good exactly until that lifetime is over |
| `IdentityEffects.RevocationIff` | completed/miaf-poc/pkg/mis/identity/service.go:322-353 | a revocation succeeds exactly for a known identity, live SVIDs or not; it then marks and lists exactly the live SVIDs of the SPIFFE ID with its reason and time, sets the identity revoked and changes nothing else |
| `IdentityEffects.PruneLeaves` | completed/miaf-poc/pkg/mis/store/revoked_svids.go:72-81 | pruning drops exactly the expired entries |
| `IdentityEffects.CreateLeaves` | completed/miaf-poc/pkg/mis/identity/service.go:177-193 | creating adds the active identity bound to the subject and records the SVID, nothing else |
| `IdentityEffects.ReplaceLeaves` | completed/miaf-poc/pkg/mis/identity/service.go:195-227 | replacing uses the ticket, moves the binding, revokes exactly the live SVIDs and records the new one, nothing else |
| `IdentityEffects.WastedTicket` | completed/miaf-poc/pkg/mis/identity/service.go:195-214 | a good ticket for an identity that is not active is used up for nothing |
| `IdentityEffects.ReEnrollLeaves` | completed/miaf-poc/pkg/mis/identity/service.go:229-257 | re-enrolling revokes exactly the live SVIDs, whether or not the key changes, and records the new one |
| `IdentityEffects.RenewLeaves` | completed/miaf-poc/pkg/mis/identity/service.go:269-299 | renewing revokes the live SVIDs exactly if the key changes, and records the new one |
| `IdentityEffects.RefusedWritesNothing` | completed/miaf-poc/pkg/mis/identity/service.go:150-299 | any other refusal that is not the issuer's writes nothing |
| `IdentityOrigins.TicketOrigin` | completed/miaf-poc/pkg/mis/store/replacement_tickets.go:35-72 | every ticket of a run was created by a request before it, for its identity, and expires when the lifetime asked for is over |
| `IdentityOrigins.EntryOrigin` | completed/miaf-poc/pkg/mis/identity/service.go:107-130 | every entry of the revocation list was made by a request before it, at the time and for the reason the entry gives, for a then live SVID of the identity the request was about |
| `IdentityOrigins.SvidOrigin` | completed/miaf-poc/pkg/mis/identity/service.go:84-105 | every SVID was recorded by an enrollment or renewal before it, with the serial and expiry signed, the key asked with and the time of the request |
| `IdentityOrigins.RebindWasAuthorized` | completed/miaf-poc/pkg/mis/store/replacement_tickets.go:75-120 | a binding moves only within the lifetime of a ticket that a request before created for that identity |
| `IdentityService.Service.ActiveBySpiffe` | completed/miaf-poc/pkg/mis/store/issued_svids.go:65-100 | exactly the live SVIDs of the SPIFFE ID, without repeats, oldest first |
| `IdentityService.Service.LatestActive` | completed/miaf-poc/pkg/mis/store/issued_svids.go:118-151 | a live SVID issued no earlier than any other, or none exactly when there is none |
| `IdentityService.Service.List` | completed/miaf-poc/pkg/mis/store/revoked_svids.go:39-70 | the loop returns exactly the unexpired entries, in order of revocation time and then of serial text, which are what is published, and the time of the latest |
| `IdentityService.Service.ValidateTicket` | completed/miaf-poc/pkg/mis/store/replacement_tickets.go:75-120 | a ticket validates once, before its expiry, and then names its identity |
| `IdentityService.Service.CreateTicket` | completed/miaf-poc/pkg/mis/store/replacement_tickets.go:35-72 | inserts an unused ticket for an existing identity with a positive lifetime, or refuses |
| `IdentityService.Service.RevokeActivePriors` | completed/miaf-poc/pkg/mis/identity/service.go:107-130 | the loop lists and marks exactly the live SVIDs, oldest first, and reports those that were new |
| `IdentityService.Service.Enroll` | completed/miaf-poc/pkg/mis/identity/service.go:150-175 | does what the enrollment program says, for queries answered in any admissible way |
| `IdentityService.Service.HandleInitial` | completed/miaf-poc/pkg/mis/identity/service.go:177-193 | creates and binds, then issues |
| `IdentityService.Service.HandleReplacement` | completed/miaf-poc/pkg/mis/identity/service.go:195-227 | uses the ticket, moves the binding, revokes the priors, then issues |
| `IdentityService.Service.HandleReEnrollment` | completed/miaf-poc/pkg/mis/identity/service.go:229-257 | checks the key against the latest live SVID, revokes the priors, then issues |
| `IdentityService.Service.Renew` | completed/miaf-poc/pkg/mis/identity/service.go:269-299 | revokes the priors only if the key changes, then issues |
| `IdentityService.Service.RevokeSpiffe` | completed/miaf-poc/pkg/mis/identity/service.go:322-353 | succeeds exactly for a known identity, sets it revoked, and reports exactly the live SVIDs, apart into new and already listed ones |
| `EnrollmentTokens.EffectiveWindow` | completed/miaf-poc/pkg/mis/bootstrap/enrollmenttoken/validator.go:54-68 | the retry window is the configured one if that is positive and at most 15 minutes, 5 minutes if it is not positive, and 15 if it is more |
| `EnrollmentTokens.RunInv` | completed/miaf-poc/pkg/mis/store/enrollment_tokens.go:47-171 | the invariant over tokens, grants, outcomes and replays holds after any interleaving of the statements of any number of requests |
| `EnrollmentTokens.OneGrant` | completed/miaf-poc/pkg/mis/store/enrollment_tokens.go:47-89 | however reads and conditional updates interleave, one token grants at most one enrollment |
| `EnrollmentTokens.GrantIsInTime` | completed/miaf-poc/pkg/mis/store/enrollment_tokens.go:25-73 | over any interleaving a granted request presented the secret of a token that a step of the run created, within the lifetime it was created with |
| `EnrollmentTokens.CreatedThenConsumed` | completed/miaf-poc/pkg/mis/store/enrollment_tokens.go:25-73 | a token is created exactly for a positive lifetime, a new secret and a new id; right after that it is consumed exactly before the lifetime is over and refused as expired from then on |
| `EnrollmentTokens.RetryIff` | completed/miaf-poc/pkg/mis/bootstrap/enrollmenttoken/validator.go:162-209 | whatever else happens, from a commit on a request with the same secret is answered again exactly within the window and with the same profile and key, and otherwise told which of these fails |
| `EnrollmentTokens.ReplayRepeats` | completed/miaf-poc/pkg/mis/bootstrap/enrollmenttoken/validator.go:162-209 | every replay answer is the committed response of the token's one enrollment, for the same key and profile, at most the window and never more than 15 minutes after completion |
| `EnrollmentTokens.CommitFindsNoOutcome` | completed/miaf-poc/pkg/mis/store/enrollment_tokens.go:146-171 | a commit never meets an outcome already recorded |
| `TokenStore.Tokens.Create` | completed/miaf-poc/pkg/mis/store/enrollment_tokens.go:25-44 | adds an unused token that can be consumed exactly until the expiry it reports, or refuses |
| `TokenStore.Tokens.Consume` | completed/miaf-poc/pkg/mis/store/enrollment_tokens.go:47-89 | succeeds exactly for a known, unexpired, unused token, with each error exactly in its case; afterwards the token reads as used |
| `TokenStore.Tokens.RecordOutcome` | completed/miaf-poc/pkg/mis/store/enrollment_tokens.go:146-171 | records an outcome exactly if it is complete and the token has none |
| `TokenStore.Tokens.Validate` | completed/miaf-poc/pkg/mis/bootstrap/enrollmenttoken/validator.go:73-123 | a replay answer leaves the store alone; an enrollment has just consumed its token; each refusal has the error of the step that failed |
| `TokenStore.Tokens.Commit` | completed/miaf-poc/pkg/mis/bootstrap/enrollmenttoken/validator.go:129-159 | after a commit the same request is answered with the same response through the window's end, and refused after it |
| `LatchModel.LatchNeverUndone` | completed/miaf-poc/pkg/device-agent/identitymanager/manager.go:76-101 | through any crashes, restarts, failed saves and damaged files, the flag is set exactly when the revocation time is, and a time that reached the disk stays there |
| `LatchModel.LatchedKeepsCertificate` | completed/miaf-poc/pkg/device-agent/identitymanager/renew.go:18-23 | from the moment a revocation reached the disk the certificate never changes again |
| `LatchModel.FlagStaysUp` | completed/miaf-poc/pkg/device-agent/identitymanager/checkrevocations.go:53-62 | in any stretch of a run without a crash a set flag stays set, whether or not it was saved |
| `LatchModel.LatchBlocks` | completed/miaf-poc/pkg/device-agent/identitymanager/renew.go:18-23 | once a revocation reached the disk, at no later moment of the run does a renewal or an exchange proceed |
| `LatchModel.NeverHidden` | completed/miaf-poc/pkg/device-agent/identitymanager/checkrevocations.go:30-62 | while the certificate reads and parses when a new list arrives, neither the saved nor the held ETag stands for a list with the current certificate unless the latch is set |
| `LatchModel.CheckTells` | completed/miaf-poc/pkg/mis/transport/http/revocations.go:64-79 | so after any check the agent is latched if the checked list holds its certificate, a 304 hides nothing, and it latches for no other reason |
| `LatchModel.HidesIff` | completed/miaf-poc/pkg/device-agent/identitymanager/checkrevocations.go:30-58 | a check hides a revocation exactly when a new list with the certificate arrives while the certificate file cannot be read or parsed and the latch is not set |
| `LatchModel.HiddenStaysHidden` | completed/miaf-poc/pkg/device-agent/identitymanager/checkrevocations.go:30-62 | the failure in full: after a list arrived while the certificate did not parse, the agent stays unlatched through any restarts, saves and checks, with the file restored, until the list changes or it renews |
| `LatchModel.CheckLeaves` | completed/miaf-poc/pkg/device-agent/identitymanager/checkrevocations.go:15-70 | a check takes over the list it is served, and its time as that of the revocation exactly if it was not latched and is named by a list it had not seen; it saves unless the certificate cannot be read |
| `LatchModel.RenewedIff` | completed/miaf-poc/pkg/device-agent/identitymanager/renew.go:18-144 | an answered renewal replaces the certificate exactly unless the agent is latched, and an exchange goes on exactly unless it is: nothing else holds them back |
| `LatchModel.RestLeaves` | completed/miaf-poc/pkg/device-agent/identitymanager/manager.go:76-101 | refreshes and refused checks save the state as held; a restart takes back exactly what was saved, latched if a revocation was |
| `LatchAgent.Manager.Save` | completed/miaf-poc/pkg/device-agent/agentstate/state.go:38-55 | the file holds the old state or the new one, whichever of write and rename fails |
| `LatchAgent.Manager.Load` | completed/miaf-poc/pkg/device-agent/identitymanager/manager.go:79-85 | a start takes the saved state and derives the flag from it |
| `LatchAgent.Manager.HandleCheckRevocations` | completed/miaf-poc/pkg/device-agent/identitymanager/checkrevocations.go:15-70 | performs exactly one check step, reports whether the certificate is listed, and fails exactly if the certificate of a new list cannot be read or saving fails |
| `LatchAgent.Manager.HandleRenew` | completed/miaf-poc/pkg/device-agent/identitymanager/renew.go:18-144 | performs exactly one renew step; it succeeds exactly if not latched, answered, and all files are written, and writes certificate and key exactly as far as it comes |
| `LatchAgent.Manager.HandleExchangeJwt` | completed/miaf-poc/pkg/device-agent/identitymanager/exchangejwt.go:14-19 | refuses exactly when latched |
| `RevocationReach.ServedIsPublished` | completed/miaf-poc/pkg/mis/transport/http/revocations.go:35-60 | the body the endpoint serves names exactly the fingerprints the store publishes |
| `RevocationReach.RevocationReaches` | completed/miaf-poc/pkg/device-agent/identitymanager/checkrevocations.go:15-70 | service and device together: once a revocation completes, every later check before the SVID expires latches the device that holds it, through any requests, renewals, crashes and restarts between |
| `RevocationReach.NeverRenewsAgain` | completed/miaf-poc/pkg/device-agent/identitymanager/renew.go:18-144 | from the revocation on the device keeps the certificate it had, latched or not, and its identity has no live SVID |
| `RevocationReach.NeverAsksAgain` | completed/miaf-poc/pkg/device-agent/identitymanager/manager.go:76-101 | from a saved check on no renewal and no exchange proceeds, through any restarts |
| `RevocationReach.RenewsIff` | completed/miaf-poc/pkg/device-agent/identitymanager/renew.go:18-144 | a renewal that the service answers gives the device the new leaf exactly if the service may renew it, the issuer signs and the file is written |
| `RevocationReach.OnlyRevokedLatches` | completed/miaf-poc/pkg/device-agent/identitymanager/checkrevocations.go:36-58 | with service requests run to their end, a device is latched only if its own SVID is revoked |
| `RenewalLimiter.WindowHoldsAtMostMax` | completed/miaf-poc/pkg/mis/transport/http/renewal.go:149-181 | over any run every window of the configured length holds at most the maximum of one identity's successes |
| `RenewalLimiter.PruningIsInvisible` | completed/miaf-poc/pkg/mis/store/renewal_events.go:79-90 | though pruning drops rows of all identities, every later answer and retry time is that of the full log |
| `RenewalLimiter.AllowedIff` | completed/miaf-poc/pkg/mis/store/renewal_events.go:41-74 | a caller is allowed exactly while fewer than the maximum of its own successes lie in the window that ends now |
| `RenewalLimiter.RetryIsExact` | completed/miaf-poc/pkg/mis/store/renewal_events.go:41-74 | a blocked caller is allowed at the returned retry time and at no moment before, if nothing is recorded in between |
| `RenewalLimiter.RenewalEvents.Allow` | completed/miaf-poc/pkg/mis/store/renewal_events.go:41-74 | the pass over the rows gives the specified answer and retry time |
| `RenewalLimiter.RenewalEvents.Record` | completed/miaf-poc/pkg/mis/store/renewal_events.go:79-90 | adds the row and prunes all identities at the cutoff |
| `IfNoneMatch.ScanIsMembership` | completed/sup_desired_state_via_manifest_api/pkg/wfm/adapter/transport/http/deployment.go:335-397 | on any rendering of entity tags, with commas, stars and escaped quotes inside them, the scan finds the current tag exactly when it is a member with the same weakness |
| `IfNoneMatch.HeaderIsMembership` | completed/sup_desired_state_via_manifest_api/pkg/wfm/adapter/transport/http/deployment.go:324-400 | the same for any number of header values, white space trimmed |
| `IfNoneMatch.StarMatches` | completed/sup_desired_state_via_manifest_api/pkg/wfm/adapter/transport/http/deployment.go:341-343 | a star matches any current tag |
| `IfNoneMatch.WordIsSkipped` | completed/sup_desired_state_via_manifest_api/pkg/wfm/adapter/transport/http/deployment.go:351-358 | an unquoted member is skipped to the next comma and ends the scan without one |
| `IfNoneMatch.WeakWordIsSkipped` | completed/sup_desired_state_via_manifest_api/pkg/wfm/adapter/transport/http/deployment.go:345-358 | so is an unquoted member that is marked weak |
| `IfNoneMatch.ScanValue` | completed/sup_desired_state_via_manifest_api/pkg/wfm/adapter/transport/http/deployment.go:335-397 | the nested loops terminate on every input with the answer of the scan |
| `IfNoneMatch.ClientHasETag` | completed/sup_desired_state_via_manifest_api/pkg/wfm/adapter/transport/http/deployment.go:324-400 | yes exactly when there is a current tag and some value's scan finds it |
| `Serials.SerialsAreDistinct` | completed/miaf-poc/pkg/mis/ca/issuer.go:242-251 | under any interleaving of the atomic operations of concurrent calls no two calls return the same serial |
| `Serials.IssuedRange` | completed/miaf-poc/pkg/mis/ca/issuer.go:242-251 | every returned serial lies between the base times 2^20 and that plus the count |
| `Serials.BaseIsReading` | completed/miaf-poc/pkg/mis/ca/issuer.go:242-245 | the base of a process is one reading of its clock and never changes after it |
| `Serials.SerialsFit` | completed/miaf-poc/pkg/mis/ca/issuer.go:232-251 | for any 64-bit clock and count serials are positive and fit 20 octets (section 4.1.2.2 of RFC 5280) |
| `Serials.RestartsAreDisjointIff` | completed/miaf-poc/pkg/mis/ca/issuer.go:232-251 | wherever two process runs stop, calls in flight included, they take disjoint serials exactly when the earlier took at most 2^20 for each nanosecond between their bases or the later none; then what they return is disjoint, and exactly then if no call is in flight |
| `Serials.SerialGenerator.Take` | completed/miaf-poc/pkg/mis/ca/issuer.go:242-251 | a call on its own fixes the base once, counts up, and returns a serial above all earlier ones |
| `JwtCache.KeysAgreeIff` | completed/miaf-poc/pkg/device-agent/jwtsvid/cache/cache.go:74-78 | keys of NUL-free lists agree exactly when the lists are equal as multisets, but for the empty list and the list of one empty string, which share a key |
| `JwtCache.JoinInjective` | completed/miaf-poc/pkg/device-agent/jwtsvid/cache/cache.go:74-78 | joining non-empty NUL-free lists loses nothing |
| `JwtCache.GetIsLastPut` | completed/miaf-poc/pkg/device-agent/jwtsvid/cache/cache.go:34-65 | over any history of puts and evictions a lookup answers as if nothing were ever evicted: the entry last put for these audiences in any order, if at least the threshold is left |
| `JwtCache.Cache.Lookup` | completed/miaf-poc/pkg/device-agent/jwtsvid/cache/cache.go:42-54 | the entry of the key unless less than the threshold is left |
| `JwtCache.Cache.EvictExpired` | completed/miaf-poc/pkg/device-agent/jwtsvid/cache/cache.go:56-65 | whatever the order of the walk, exactly the entries with less than the threshold left go |
| `ReplayStore.NeverForgets` | completed/miaf-poc/pkg/mis/bootstrap/factorycertjwt/replay/store.go:66-103 | wherever sweeps fall, the store answers like one that remembers every success |
| `ReplayStore.AtMostOnce` | completed/miaf-poc/pkg/mis/store/jwt_replay.go:24-57 | a second success of an identifier never comes before the expiry recorded with the first |
| `ReplayStore.AgainIff` | completed/miaf-poc/pkg/mis/bootstrap/factorycertjwt/replay/store.go:66-78 | after a success, wherever sweeps fall, the same identifier is a replay exactly before its recorded expiry |
| `ReplayStore.MemoryStore.WitnessOne` | completed/miaf-poc/pkg/mis/bootstrap/factorycertjwt/replay/store.go:66-78 | a replay changes nothing; otherwise the expiry is recorded, a stale one overwritten |
| `ReplayStore.MemoryStore.SweepAll` | completed/miaf-poc/pkg/mis/bootstrap/factorycertjwt/replay/store.go:94-103 | the loop drops exactly the entries that have expired |
| `BundleMap.BigEndianRoundTrip` | completed/miaf-poc/pkg/mis/bundlemap/builder.go:100-123 | big-endian octets without leading zeros read back as the number |
| `BundleMap.FixedWidthIff` | completed/miaf-poc/pkg/mis/bundlemap/builder.go:142-150 | a coordinate is written in exactly the curve's width if and only if it fits it (section 6.2.1.2 of RFC 7518) |
| `BundleMap.WrittenForm` | completed/miaf-poc/pkg/mis/bundlemap/builder.go:100-150 | a key is written with its type and curve name, coordinates in exactly 32, 48 or 66 octets if they fit the curve, modulus and exponent without leading zeros (sections 6.2.1 and 6.3.1 of RFC 7518), and each number reads back |
| `BundleMap.WritableIff` | completed/miaf-poc/pkg/mis/bundlemap/builder.go:100-136 | a key cannot be written exactly if it is of another kind or on another curve |
| `BundleMap.DecodesIff` | completed/miaf-poc/pkg/device-agent/bundle/parse.go:105-154 | a key reads exactly if it is an EC key on a known curve or an RSA key, and its numbers decode |
| `BundleMap.X509ReadsIff` | completed/miaf-poc/pkg/device-agent/bundle/parse.go:21-66 | the X.509 keys of any document read exactly if each carries a certificate that parses |
| `BundleMap.JwtReadsIff` | completed/miaf-poc/pkg/device-agent/bundle/parse.go:69-103 | the JWT keys of any document read exactly if each of them does |
| `BundleMap.KeyRoundTripIff` | completed/miaf-poc/pkg/device-agent/bundle/parse.go:105-141 | a supported key reads back as itself exactly when it has no negative exponent whose sign is lost (section 6.3.1 of RFC 7518 has no negative ones) |
| `BundleMap.BuildThenExtract` | completed/miaf-poc/pkg/device-agent/bundle/parse.go:21-103 | reading a built document for its trust domain gives back the same X.509 authorities in order exactly when there is one at all, and the same JWT key ids and keys in order exactly when no exponent loses its sign; without X.509 authorities the reader fails, and no other domain is found |
| `BundleMap.Build` | completed/miaf-poc/pkg/mis/bundlemap/builder.go:44-98 | the loops succeed exactly when the domain is named and every authority can be written, with one key for each authority in order; otherwise with the error of the first that cannot |
| `BundleMap.EncodeFixed` | completed/miaf-poc/pkg/mis/bundlemap/builder.go:142-150 | the buffer filled from the right has the padded form, and reads back as the number |
| `BundleMap.ExtractX509Authorities` | completed/miaf-poc/pkg/device-agent/bundle/parse.go:21-66 | the certificates of the X.509 keys in order, or the error of the first bad one, or of a missing or empty entry |
| `BundleMap.ExtractJwtAuthorities` | completed/miaf-poc/pkg/device-agent/bundle/parse.go:69-103 | the JWT keys in order, or the error of the first bad one, or of a missing entry |
| `Timestamps.SecondsCompare` | completed/miaf-poc/pkg/mis/store/issued_svids.go:65-80 | across different seconds the order of RFC3339Nano texts is the order of time |
| `Timestamps.WithinSecondIff` | completed/miaf-poc/pkg/mis/store/revoked_svids.go:39-46 | within one second an earlier instant has the lesser text exactly when its fraction, stripped of zeros, is not a prefix of the later one's |
| `Timestamps.WholeSecondsCompare` | completed/miaf-poc/pkg/mis/store/renewal_events.go:41-60 | whole-second instants always compare as time does, and a whole second never does against a fraction of itself |

## Left out

- Two identity requests that interleave between their store calls: the service takes no lock there; a request is one step that may stop early.
- Failures of single SQL statements and other I/O errors beyond the stop points and the failed saves, downloads and issuing that are modelled; the errors of `revokeActivePriors` and `MarkRevoked` that the service ignores.
- Certificate issuing itself (key selection, cap of the expiry, chain), the step-ca registration authority, JWT signing, lifetime capping and the audit log of issued JWTs.
- HTTP routing, TLS, authentication, problem details, the Accept header, URL resolution, CLI flags and file paths.
- The If-Modified-Since path of the revocation endpoint: the agent always sends the ETag once it has one, and the ETag is preferred.
- The enrollment command that replaces the agent's state file: it runs outside the manager whose latch is modelled.
- The scheduler, its renewal ratio and its channels; the retry of a failed poll.
- Overflow of the 64-bit version and counter fields.
- Registration of devices: the set of devices is fixed during a run.
- Columns that no query or request uses: the method, the start of validity and the time of marking of an issued SVID.
- LatchAgent.Manager.HandleRenew: key generation and the request are parameters, and a certificate file that is damaged by a failed write is what `CertificateFile` describes.
- TokenStore.Tokens.Commit: best effort in the source, so a failure is returned here and ignored there.
- ReplayStore.AtMostOnce: the SQL store never sweeps and checks inside one transaction; both stores share the model, which allows sweeps anywhere.
- RevocationReach.RevocationReaches: assumes that the certificate file reads and parses each time a new list arrives; `LatchModel.HidesIff` says exactly what goes wrong otherwise.
- RenewalLimiter.WindowHoldsAtMostMax: a success is asked for and recorded at one reading of the clock, and recording does not fail.
