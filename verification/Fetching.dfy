/** What the desired-state server answers to those who fetch: exactly what requests have brought. */
module Fetching {
  import opened Prelude
  import opened Content
  import opened ServerModel
  import opened ServerProofs

  /** The digest of the descriptor that a create or an update stores. */
  function StoredDigest(r: Request): Option<Digest> {
    match r
    case Create(_, parsed, uuid) => if parsed.Some? then Some(Sha256(Render(parsed.value.(id := uuid)))) else None
    case Update(_, id, parsed) => if parsed.Some? then Some(Sha256(Render(parsed.value.(id := id)))) else None
    case Delete(_, _) => None
  }

  lemma {:induction false} WithBlobsKeys(blobs: map<Digest, Bytes>, list: seq<Deployment>, k: Digest)
    ensures k in WithBlobs(blobs, list) <==> k in blobs || exists d :: d in list && d.digest == k
  {
    if list != [] {
      var front, last := list[..|list| - 1], list[|list| - 1];
      assert list == front + [last];
      WithBlobsKeys(blobs, front, k);
    }
  }

  lemma EditedMembers(list: seq<Deployment>, edit: Edit, after: seq<Deployment>, d: Deployment)
    requires Edited(list, edit) == Some(after) && d in after
    ensures d in list || (!edit.Remove? && d == edit.deployment)
  {
  }

  lemma EditIsIn(list: seq<Deployment>, edit: Edit, after: seq<Deployment>)
    requires Edited(list, edit) == Some(after) && !edit.Remove?
    ensures edit.deployment in after
  {
    if edit.Append? { assert after[|list|] == edit.deployment; }
    else { assert after[IndexOf(list, edit.deployment.id)] == edit.deployment; }
  }

  lemma LoadedIsStored(t: Tables, device: Id, d: Deployment)
    requires Valid(t) && d in Load(t, device)
    ensures d.digest in t.deploymentBlobs
  {
    LoadedIsRow(t, device, d);
    assert ValidDevice(t, device);
  }

  lemma EditStores(r: Request)
    requires EditOf(r).Success?
    ensures var e := EditOf(r).value; if e.Remove?
      then StoredDigest(r) == None else StoredDigest(r) == Some(e.deployment.digest)
  {
  }

  /** A successful request stores the one descriptor it brings. */
  lemma StepStores(t: Tables, r: Request, k: Digest)
    requires Valid(t)
    ensures k in Step(t, r).deploymentBlobs <==>
              k in t.deploymentBlobs || (Handle(t, r).Success? && StoredDigest(r) == Some(k))
  {
    if Handle(t, r).Success? {
      var list := StepIsPersist(t, r);
      EditStores(r);
      PersistStores(t, r.device, EditOf(r).value, list, k);
    }
  }

  lemma PersistStores(t: Tables, device: Id, edit: Edit, list: seq<Deployment>, k: Digest)
    requires Valid(t) && Edited(Current(t, device), edit) == Some(list)
    ensures k in Persisted(t, device, list).deploymentBlobs <==>
              k in t.deploymentBlobs || (!edit.Remove? && edit.deployment.digest == k)
  {
    WithBlobsKeys(t.deploymentBlobs, list, k);
    if d: Deployment :| d in list && d.digest == k {
      EditedMembers(Current(t, device), edit, list, d);
      if d in Current(t, device) { LoadedIsStored(t, device, d); }
    }
    if !edit.Remove? { EditIsIn(Current(t, device), edit, list); }
  }

  // ---- Manifests -------------------------------------------------------------------

  lemma RowIsListed(t: Tables, device: Id, id: Id)
    requires Valid(t) && device in t.manifests && id in RowsOf(t, device)
    ensures Listing(id, RowsOf(t, device)[id]) in ListingsOf(Load(t, device))
  {
    LoadIsRows(t, device);
    ListedOf(Load(t, device), id);
  }

  lemma ListedOf(list: seq<Deployment>, id: Id)
    requires id in RowsFrom(list)
    ensures Listing(id, RowsFrom(list)[id]) in ListingsOf(list)
  {
    RowsFromKeys(list);
    var d: Deployment :| d in list && d.id == id && d.digest == RowsFrom(list)[id];
    var i :| 0 <= i < |list| && list[i] == d;
    assert ListingsOf(list)[i] == Listing(id, RowsFrom(list)[id]);
  }

  /** From a new database on exactly the known devices are answered, with exactly their rows. */
  lemma ManifestIff(t: Tables, rs: seq<Request>, device: Id, l: Listing)
    requires Initial(t)
    ensures var got, rows := GetManifest(Run(t, rs), device), RowsOf(Run(t, rs), device);
      && (got == Failure(DeviceNotFound) <==> device !in t.devices)
      && (got.Success? <==> device in t.devices)
      && (got.Success? ==> (l in got.value.listings <==> l.id in rows && rows[l.id] == l.digest))
  {
    var u := Run(t, rs);
    InitialValid(t);
    RunValid(t, rs);
    DevicesKept(t, rs);
    assert ValidDevice(u, device);
    if l in Served(u, device).listings { ListedIsRow(u, device, l); }
    if l.id in RowsOf(u, device) { RowIsListed(u, device, l.id); }
  }

  // ---- Descriptors -----------------------------------------------------------------

  /** Some request of the run succeeded and brought this descriptor. */
  ghost predicate Brought(t: Tables, rs: seq<Request>, digest: Digest) {
    rs != [] &&
    (var front, r := rs[..|rs| - 1], rs[|rs| - 1];
     Brought(t, front, digest) || (Handle(Run(t, front), r).Success? && StoredDigest(r) == Some(digest)))
  }

  lemma {:induction false} RunStores(t: Tables, rs: seq<Request>, digest: Digest)
    requires Valid(t)
    ensures digest in Run(t, rs).deploymentBlobs <==> digest in t.deploymentBlobs || Brought(t, rs, digest)
  {
    if rs != [] {
      var front := rs[..|rs| - 1];
      RunStores(t, front, digest);
      RunValid(t, front);
      StepStores(Run(t, front), rs[|rs| - 1], digest);
    }
  }

  /** From a new database on, a descriptor can be fetched by exactly the known devices, and exactly if a
      request that brought it has succeeded; then it has the digest asked for. */
  lemma FetchableIff(t: Tables, rs: seq<Request>, device: Id, digest: Digest)
    requires Initial(t)
    ensures var got := GetDeployment(Run(t, rs), device, digest);
      && (got == Failure(DeviceNotFound) <==> device !in t.devices)
      && (got == Failure(DeploymentNotFound) <==> device in t.devices && !Brought(t, rs, digest))
      && (got.Success? <==> device in t.devices && Brought(t, rs, digest))
      && (got.Success? ==> Sha256(got.value) == digest)
  {
    InitialValid(t);
    RunValid(t, rs);
    RunStores(t, rs, digest);
    DevicesKept(t, rs);
  }

  // ---- What a bundle holds ---------------------------------------------------------

  /** A manifest names no bundle exactly if it lists no deployment. */
  lemma NoBundleIff(t: Tables, device: Id)
    requires Valid(t)
    ensures Served(t, device).bundle.None? <==> Served(t, device).listings == []
  {
    assert ValidDevice(t, device);
    if device in t.manifests {
      var list: seq<Deployment> :| Archived(list, t.manifests[device].bundle, RowsOf(t, device));
      RowsFromKeys(list);
      if Served(t, device).listings != [] {
        ListedIsRow(t, device, Served(t, device).listings[0]);
      } else if list != [] {
        assert list[0] in list && list[0].id in RowsOf(t, device);
        RowIsListed(t, device, list[0].id);
      }
    }
  }

  /** The entry is the file of a listed deployment. */
  ghost predicate EntryListed(t: Tables, device: Id, e: Entry) {
    exists l :: l in Served(t, device).listings && l.digest.Sha256? && e == Regular(l.id + ".yaml", l.digest.content)
  }

  lemma EntryListedIff(t: Tables, device: Id, d: Deployment)
    requires Valid(t) && device in t.manifests && d.digest == Sha256(d.descriptor)
    ensures EntryListed(t, device, Regular(d.id + ".yaml", d.descriptor)) <==>
              d.id in RowsOf(t, device) && RowsOf(t, device)[d.id] == d.digest
  {
    var e := Regular(d.id + ".yaml", d.descriptor);
    if EntryListed(t, device, e) {
      var l :| l in Served(t, device).listings && l.digest.Sha256? && e == Regular(l.id + ".yaml", l.digest.content);
      SameStem(l.id, d.id);
      ListedIsRow(t, device, l);
    }
    if d.id in RowsOf(t, device) && RowsOf(t, device)[d.id] == d.digest { RowIsListed(t, device, d.id); }
  }

  /** Every deployment of the list is the one that its row names. */
  ghost predicate RowsAgree(list: seq<Deployment>) {
    forall d :: d in list ==> d.id in RowsFrom(list) && RowsFrom(list)[d.id] == d.digest
  }

  lemma DistinctAgree(list: seq<Deployment>)
    requires DistinctIds(list)
    ensures RowsAgree(list)
  {
    RowsFromDistinct(list);
  }

  lemma AppendAgreesIff(list: seq<Deployment>, d: Deployment)
    requires DistinctIds(list)
    ensures RowsAgree(list + [d]) <==> !(d.id in RowsFrom(list) && RowsFrom(list)[d.id] != d.digest)
  {
    DistinctAgree(list);
    RowsAfterAppend(list, d);
    if d.id in RowsFrom(list) && RowsFrom(list)[d.id] != d.digest {
      RowsFromKeys(list);
      var x :| x in list && x.id == d.id;
      assert x in list + [d] && x.digest != d.digest;
    }
  }

  /** An edit leaves a list that disagrees with its rows exactly if it appends under an id that is taken. */
  lemma EditAgreesIff(list: seq<Deployment>, edit: Edit, after: seq<Deployment>)
    requires DistinctIds(list) && Edited(list, edit) == Some(after)
    ensures RowsAgree(after) <==>
              !(edit.Append? && edit.deployment.id in RowsFrom(list) &&
                RowsFrom(list)[edit.deployment.id] != edit.deployment.digest)
  {
    if edit.Append? {
      AppendAgreesIff(list, edit.deployment);
    } else if edit.Remove? {
      RemoveKeepsOthers(list, IndexOf(list, edit.id));
      DistinctAgree(after);
    } else {
      DistinctAgree(after);
    }
  }

  lemma AllListedIff(t: Tables, device: Id, list: seq<Deployment>)
    requires Valid(t) && device in t.manifests && Honest(list) && RowsOf(t, device) == RowsFrom(list)
    ensures (forall e :: e in EntriesOf(list) ==> EntryListed(t, device, e)) <==> RowsAgree(list)
  {
    forall d | d in list
      ensures EntryListed(t, device, Regular(d.id + ".yaml", d.descriptor)) <==>
                d.id in RowsFrom(list) && RowsFrom(list)[d.id] == d.digest
    {
      EntryListedIff(t, device, d);
    }
    if RowsAgree(list) {
      forall e | e in EntriesOf(list) ensures EntryListed(t, device, e) {
        var i :| 0 <= i < |list| && EntriesOf(list)[i] == e;
        assert list[i] in list;
      }
    } else {
      var d :| d in list && !(d.id in RowsFrom(list) && RowsFrom(list)[d.id] == d.digest);
      var i :| 0 <= i < |list| && list[i] == d;
      assert EntriesOf(list)[i] in EntriesOf(list);
    }
  }

  /** After a request the bundle holds nothing but what the manifest lists, exactly unless the request created a
      deployment under an id that another one had: then the bundle still holds that one too. */
  lemma BundleIsExactIff(t: Tables, r: Request, archive: Bytes)
    requires Valid(t) && Handle(t, r).Success? && Served(Step(t, r), r.device).bundle == Some(Sha256(archive))
    ensures archive.TarGz?
    ensures (forall e :: e in archive.entries ==> EntryListed(Step(t, r), r.device, e)) <==>
              !(r.Create? && r.uuid in RowsOf(t, r.device) && Some(RowsOf(t, r.device)[r.uuid]) != StoredDigest(r))
  {
    var list := StepIsPersist(t, r);
    var u := Step(t, r);
    StepValid(t, r);
    PersistedBundle(t, r.device, list);
    LoadIsRows(t, r.device);
    assert ValidDevice(t, r.device);
    EditStores(r);
    EditAgreesIff(Current(t, r.device), EditOf(r).value, list);
    AllListedIff(u, r.device, list);
  }

  lemma PersistedBundle(t: Tables, device: Id, list: seq<Deployment>)
    ensures var u := Persisted(t, device, list);
      device in u.manifests && RowOf(u, device).bundle == BundleOf(list) && RowsOf(u, device) == RowsFrom(list)
  {
  }

  // ---- Bundles ---------------------------------------------------------------------

  /** The bundle of the manifest that the device is served. */
  ghost predicate ServesBundle(t: Tables, device: Id, digest: Digest) { RowOf(t, device).bundle == Some(digest) }

  lemma BundleIsServed(t: Tables, device: Id, digest: Digest)
    ensures ServesBundle(t, device, digest) <==> Served(t, device).bundle == Some(digest)
  {
  }

  /** After some request of the run a device was served a manifest with this bundle. */
  ghost predicate Named(t: Tables, rs: seq<Request>, digest: Digest) {
    rs != [] &&
    (Named(t, rs[..|rs| - 1], digest) || exists device :: ServesBundle(Run(t, rs), device, digest))
  }

  lemma ServedIsStored(t: Tables, device: Id, k: Digest)
    requires Valid(t) && ServesBundle(t, device, k)
    ensures k in t.bundleBlobs
  {
    BundleIsServed(t, device, k);
    ListedIsStored(t, device);
  }

  lemma PersistBundles(t: Tables, device: Id, list: seq<Deployment>, k: Digest)
    ensures var u := Persisted(t, device, list);
      k in u.bundleBlobs <==> k in t.bundleBlobs || ServesBundle(u, device, k)
  {
  }

  lemma StepBundles(t: Tables, r: Request, k: Digest)
    requires Valid(t)
    ensures k in Step(t, r).bundleBlobs <==>
              k in t.bundleBlobs || exists device :: ServesBundle(Step(t, r), device, k)
  {
    var u := Step(t, r);
    StepValid(t, r);
    if Handle(t, r).Success? {
      var list := StepIsPersist(t, r);
      PersistBundles(t, r.device, list, k);
    }
    if device :| ServesBundle(u, device, k) { ServedIsStored(u, device, k); }
  }

  lemma {:induction false} RunBundles(t: Tables, rs: seq<Request>, digest: Digest)
    requires Initial(t)
    ensures digest in Run(t, rs).bundleBlobs <==> Named(t, rs, digest)
  {
    if rs != [] {
      var front := rs[..|rs| - 1];
      RunBundles(t, front, digest);
      InitialValid(t);
      RunValid(t, front);
      StepBundles(Run(t, front), rs[|rs| - 1], digest);
    }
  }

  /** A bundle can be fetched exactly if some device was once served a manifest that names it. */
  lemma BundleFetchableIff(t: Tables, rs: seq<Request>, device: Id, digest: Digest)
    requires Initial(t)
    ensures var got := GetBundle(Run(t, rs), device, digest);
      && (got == Failure(DeviceNotFound) <==> device !in t.devices)
      && (got == Failure(BundleNotFound) <==> device in t.devices && !Named(t, rs, digest))
      && (got.Success? <==> device in t.devices && Named(t, rs, digest))
      && (got.Success? ==> Sha256(got.value) == digest)
  {
    InitialValid(t);
    RunValid(t, rs);
    RunBundles(t, rs, digest);
    DevicesKept(t, rs);
  }
}
