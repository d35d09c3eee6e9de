/** What every run of the desired-state server keeps. */
module ServerProofs {
  import opened Prelude
  import opened Content
  import opened Text
  import opened ServerModel

  // ---- The invariant ---------------------------------------------------------------

  /** Digests are of the descriptors, and each descriptor carries the id of its deployment. */
  ghost predicate Honest(list: seq<Deployment>) {
    forall d :: d in list ==>
      d.digest == Sha256(d.descriptor) && d.descriptor.Yaml? && d.descriptor.descriptor.id == d.id
  }

  /** `list` is what the stored bundle was built from, and the rows are its rows. */
  ghost predicate Archived(list: seq<Deployment>, bundle: Option<Digest>, rows: map<Id, Digest>) {
    Honest(list) && BundleOf(list) == bundle && RowsFrom(list) == rows
  }

  ghost predicate Addressed(blobs: map<Digest, Bytes>) {
    forall k :: k in blobs ==> k == Sha256(blobs[k])
  }

  ghost predicate ValidDevice(t: Tables, device: Id) {
    && (device !in t.manifests ==> RowsOf(t, device) == map[])
    && (device in t.manifests ==>
          var row := t.manifests[device];
          && device in t.devices
          && row.version >= 2
          && (row.bundle.Some? ==> row.bundle.value in t.bundleBlobs)
          && exists list :: Archived(list, row.bundle, RowsOf(t, device)))
    && (forall id :: id in RowsOf(t, device) ==> RowsOf(t, device)[id] in t.deploymentBlobs)
  }

  ghost predicate Valid(t: Tables) {
    && Addressed(t.deploymentBlobs)
    && Addressed(t.bundleBlobs)
    && (forall k :: k in t.deploymentBlobs ==> t.deploymentBlobs[k].Yaml?)
    && (forall device :: ValidDevice(t, device))
  }

  // ---- Lists, rows and blobs -------------------------------------------------------

  /** The archive holds enough to recover the list: equal bundles come from equal lists. */
  lemma BundleDeterminesList(a: seq<Deployment>, b: seq<Deployment>)
    requires Honest(a) && Honest(b) && BundleOf(a) == BundleOf(b)
    ensures a == b
  {
    if a != [] {
      assert EntriesOf(a) == EntriesOf(b);
      assert |a| == |EntriesOf(a)| == |EntriesOf(b)| == |b|;
      forall i | 0 <= i < |a| ensures a[i] == b[i] {
        assert EntriesOf(a)[i] == EntriesOf(b)[i];
        SameStem(a[i].id, b[i].id);
        assert a[i] in a && b[i] in b;
      }
    }
  }

  lemma SameStem(a: string, b: string)
    requires a + ".yaml" == b + ".yaml"
    ensures a == b
  {
    assert a == (a + ".yaml")[..|a + ".yaml"| - 5];
    assert b == (b + ".yaml")[..|b + ".yaml"| - 5];
  }

  ghost predicate DistinctIds(list: seq<Deployment>) {
    forall i, j :: 0 <= i < j < |list| ==> list[i].id != list[j].id
  }

  lemma {:induction false} RowsFromKeys(list: seq<Deployment>)
    ensures forall id :: id in RowsFrom(list) <==> exists d :: d in list && d.id == id
    ensures forall id :: id in RowsFrom(list) ==> exists d :: d in list && d.id == id && d.digest == RowsFrom(list)[id]
  {
    if list != [] {
      var front, last := list[..|list| - 1], list[|list| - 1];
      RowsFromKeys(front);
      assert list == front + [last];
    }
  }

  /** Without repeated ids every deployment has its row. */
  lemma {:induction false} RowsFromDistinct(list: seq<Deployment>)
    requires DistinctIds(list)
    ensures forall d :: d in list ==> d.id in RowsFrom(list) && RowsFrom(list)[d.id] == d.digest
  {
    if list != [] {
      var front, last := list[..|list| - 1], list[|list| - 1];
      RowsFromDistinct(front);
      assert list == front + [last];
    }
  }

  lemma SameRows(list: seq<Deployment>, rows: map<Id, Digest>)
    requires DistinctIds(list)
    requires forall x :: x in list ==> x.id in rows && rows[x.id] == x.digest
    requires forall id :: id in rows ==> exists x :: x in list && x.id == id
    ensures RowsFrom(list) == rows
  {
    RowsFromKeys(list);
    RowsFromDistinct(list);
  }

  lemma {:induction false} WithBlobsGrows(blobs: map<Digest, Bytes>, list: seq<Deployment>)
    requires Addressed(blobs) && Honest(list)
    requires forall k :: k in blobs ==> blobs[k].Yaml?
    ensures Addressed(WithBlobs(blobs, list))
    ensures forall k :: k in blobs ==> k in WithBlobs(blobs, list) && WithBlobs(blobs, list)[k] == blobs[k]
    ensures forall d :: d in list ==> d.digest in WithBlobs(blobs, list)
    ensures forall k :: k in WithBlobs(blobs, list) ==> WithBlobs(blobs, list)[k].Yaml?
  {
    if list != [] {
      var front, last := list[..|list| - 1], list[|list| - 1];
      assert list == front + [last];
      WithBlobsGrows(blobs, front);
      assert last in list;
    }
  }

  /** Loading depends on a device's rows and on the blobs they name, nothing else. */
  lemma LoadFrame(t: Tables, u: Tables, device: Id)
    requires RowsOf(t, device) == RowsOf(u, device)
    requires forall id :: id in RowsOf(t, device) ==> RowsOf(t, device)[id] in t.deploymentBlobs
    requires forall k :: k in t.deploymentBlobs ==>
      k in u.deploymentBlobs && u.deploymentBlobs[k] == t.deploymentBlobs[k]
    ensures Load(t, device) == Load(u, device)
  {
    assert Joined(t, device) == Joined(u, device);
  }

  ghost predicate IdOrdered(list: seq<Deployment>) {
    forall i, j :: 0 <= i < j < |list| ==> LexLeq(list[i].id, list[j].id) && list[i].id != list[j].id
  }

  lemma InIdOrderLists(joined: map<Id, Deployment>)
    requires forall id :: id in joined ==> joined[id].id == id
    ensures forall d :: d in InIdOrder(joined) <==> d.id in joined && joined[d.id] == d
    ensures IdOrdered(InIdOrder(joined))
  {
    var ids, list := InOrder(joined.Keys), InIdOrder(joined);
    InOrderSorted(joined.Keys);
    assert forall i :: 0 <= i < |ids| ==> ids[i] in ids && list[i].id == ids[i];
    forall d: Deployment | d.id in joined && joined[d.id] == d ensures d in list {
      assert d.id in ids;
      var i :| 0 <= i < |ids| && ids[i] == d.id;
      assert list[i] == d;
    }
  }

  /** A reload is the rows in id order, each with its content. */
  lemma LoadIsRows(t: Tables, device: Id)
    requires Valid(t)
    ensures Honest(Load(t, device)) && DistinctIds(Load(t, device)) && IdOrdered(Load(t, device))
    ensures RowsFrom(Load(t, device)) == RowsOf(t, device)
  {
    assert ValidDevice(t, device);
    var joined, list, rows := Joined(t, device), Load(t, device), RowsOf(t, device);
    InIdOrderLists(joined);
    assert forall id :: id in rows ==> id in joined && joined[id] in list;
    SameRows(list, rows);
    forall d | d in list ensures d.descriptor.descriptor.id == d.id { RowCarriesId(t, device, d.id); }
  }

  /** A row's digest is that of a descriptor with the row's id. */
  lemma RowCarriesId(t: Tables, device: Id, id: Id)
    requires Valid(t) && id in RowsOf(t, device)
    ensures var g := RowsOf(t, device)[id]; g.Sha256? && g.content.Yaml? && g.content.descriptor.id == id
  {
    assert ValidDevice(t, device);
    var list: seq<Deployment> :| Archived(list, t.manifests[device].bundle, RowsOf(t, device));
    RowsFromKeys(list);
  }

  // ---- One request -----------------------------------------------------------------

  lemma EditKeepsHonest(list: seq<Deployment>, edit: Edit)
    requires Honest(list) && (edit.Remove? || Honest([edit.deployment]))
    requires Edited(list, edit).Some?
    ensures Honest(Edited(list, edit).value) && (list == [] ==> Edited(list, edit).value != [])
  {
    if !edit.Remove? { assert edit.deployment in [edit.deployment]; }
  }

  lemma RequestIsHonest(r: Request)
    ensures var e := EditOf(r); e.Success? && !e.value.Remove? ==> Honest([e.value.deployment])
  {
  }

  lemma PersistedValid(t: Tables, device: Id, list: seq<Deployment>)
    requires Valid(t) && Honest(list) && device in t.devices
    requires device !in t.manifests ==> list != []
    ensures Valid(Persisted(t, device, list))
  {
    var u := Persisted(t, device, list);
    WithBlobsGrows(t.deploymentBlobs, list);
    RowsFromKeys(list);
    assert ValidDevice(t, device);
    assert Archived(list, u.manifests[device].bundle, RowsOf(u, device));
    forall other | other != device ensures ValidDevice(u, other) {
      assert ValidDevice(t, other);
      assert RowsOf(u, other) == RowsOf(t, other);
    }
  }

  lemma EditedIsHonest(t: Tables, device: Id, edit: Edit, list: seq<Deployment>)
    requires Valid(t) && (edit.Remove? || Honest([edit.deployment])) && Edited(Current(t, device), edit) == Some(list)
    ensures Honest(list) && (device !in t.manifests ==> list != [])
  {
    LoadIsRows(t, device);
    EditKeepsHonest(Current(t, device), edit);
  }

  /** A successful request persists an honest list, never an empty one for a new device. */
  lemma StepIsPersist(t: Tables, r: Request) returns (list: seq<Deployment>)
    requires Valid(t) && Handle(t, r).Success?
    ensures Honest(list) && Edited(Current(t, r.device), EditOf(r).value) == Some(list)
    ensures r.device in t.devices && (r.device !in t.manifests ==> list != [])
    ensures Step(t, r) == Persisted(t, r.device, list)
  {
    list := Edited(Current(t, r.device), EditOf(r).value).value;
    RequestIsHonest(r);
    EditedIsHonest(t, r.device, EditOf(r).value, list);
  }

  lemma StepValid(t: Tables, r: Request)
    requires Valid(t)
    ensures Valid(Step(t, r))
  {
    if Handle(t, r).Success? {
      var list := StepIsPersist(t, r);
      PersistedValid(t, r.device, list);
    }
  }

  ghost predicate Within(a: map<Digest, Bytes>, b: map<Digest, Bytes>) {
    forall k :: k in a ==> k in b && b[k] == a[k]
  }

  ghost predicate BlobsKept(t: Tables, u: Tables) {
    Within(t.deploymentBlobs, u.deploymentBlobs) && Within(t.bundleBlobs, u.bundleBlobs)
  }

  lemma PersistedBlobs(t: Tables, device: Id, list: seq<Deployment>)
    requires Valid(t) && Honest(list)
    ensures BlobsKept(t, Persisted(t, device, list))
  {
    WithBlobsGrows(t.deploymentBlobs, list);
  }

  lemma StepKeepsBlobs(t: Tables, r: Request)
    requires Valid(t)
    ensures BlobsKept(t, Step(t, r))
  {
    if Handle(t, r).Success? {
      var list := StepIsPersist(t, r);
      PersistedBlobs(t, r.device, list);
    }
  }

  /** A persist that keeps the version keeps the whole manifest, for the bundle names its list. */
  lemma PersistedSameVersion(t: Tables, device: Id, list: seq<Deployment>)
    requires Valid(t) && Honest(list) && device in t.manifests
    requires Rebuilt(RowOf(t, device), list).version == RowOf(t, device).version
    ensures Served(Persisted(t, device, list), device) == Served(t, device)
  {
    var u := Persisted(t, device, list);
    assert ValidDevice(t, device);
    var before :| Archived(before, t.manifests[device].bundle, RowsOf(t, device));
    BundleDeterminesList(before, list);
    WithBlobsGrows(t.deploymentBlobs, list);
    LoadFrame(t, u, device);
  }

  /** A persist for one device leaves what another is served. */
  lemma PersistedElsewhere(t: Tables, owner: Id, list: seq<Deployment>, device: Id)
    requires Valid(t) && Honest(list) && device != owner
    ensures var u := Persisted(t, owner, list);
            Served(u, device) == Served(t, device) && RowsOf(u, device) == RowsOf(t, device)
  {
    var u := Persisted(t, owner, list);
    assert ValidDevice(t, device);
    PersistedBlobs(t, owner, list);
    assert RowsOf(u, device) == RowsOf(t, device);
    LoadFrame(t, u, device);
  }

  /** `b` is `a`, or has a greater version. */
  ghost predicate Follows(a: Manifest, b: Manifest) {
    a == b || a.version < b.version
  }

  lemma PersistedFollows(t: Tables, device: Id, list: seq<Deployment>)
    requires Valid(t) && Honest(list) && (device !in t.manifests ==> list != [])
    ensures Follows(Served(t, device), Served(Persisted(t, device, list), device))
  {
    if device in t.manifests && Rebuilt(RowOf(t, device), list).version == RowOf(t, device).version {
      PersistedSameVersion(t, device, list);
    }
  }

  /** What one request does to what one device is served. */
  lemma StepVersions(t: Tables, r: Request, device: Id)
    requires Valid(t)
    ensures Follows(Served(t, device), Served(Step(t, r), device))
    ensures device != r.device ==>
      Served(t, device) == Served(Step(t, r), device) && RowsOf(t, device) == RowsOf(Step(t, r), device)
  {
    if Handle(t, r).Success? {
      var list := StepIsPersist(t, r);
      if device != r.device {
        PersistedElsewhere(t, r.device, list, device);
      } else {
        PersistedFollows(t, device, list);
      }
    }
  }

  // ---- Whole runs ------------------------------------------------------------------

  lemma {:induction false} RunValid(t: Tables, rs: seq<Request>)
    requires Valid(t)
    ensures Valid(Run(t, rs))
  {
    if rs != [] {
      RunValid(t, rs[..|rs| - 1]);
      StepValid(Run(t, rs[..|rs| - 1]), rs[|rs| - 1]);
    }
  }

  lemma InitialValid(t: Tables)
    requires Initial(t)
    ensures Valid(t)
  {
  }

  /** Over any run a device's version never falls, and while it stands still the manifest does:
      equal versions mean equal manifests, so a reader may drop what does not exceed its version. */
  lemma VersionNamesManifest(t: Tables, rs: seq<Request>, more: seq<Request>, device: Id)
    requires Valid(t)
    ensures Follows(Served(Run(t, rs), device), Served(Run(t, rs + more), device))
  {
    RunValid(t, rs);
    RunFollows(Run(t, rs), more, device);
    RunAppend(t, rs, more);
  }

  lemma {:induction false} RunFollows(t: Tables, more: seq<Request>, device: Id)
    requires Valid(t)
    ensures Follows(Served(t, device), Served(Run(t, more), device))
  {
    if more != [] {
      var front := more[..|more| - 1];
      RunFollows(t, front, device);
      RunValid(t, front);
      FollowsOn(Served(t, device), Run(t, front), more[|more| - 1], device);
    }
  }

  lemma {:induction false} RunAppend(t: Tables, rs: seq<Request>, more: seq<Request>)
    ensures Run(t, rs + more) == Run(Run(t, rs), more)
    decreases |more|
  {
    if more == [] {
      assert rs + more == rs;
    } else {
      var front, last := more[..|more| - 1], more[|more| - 1];
      RunAppend(t, rs, front);
      RunSnoc(t, rs, front, last);
      assert more == front + [last];
    }
  }

  lemma FollowsOn(m: Manifest, t: Tables, r: Request, device: Id)
    requires Valid(t) && Follows(m, Served(t, device))
    ensures Follows(m, Served(Step(t, r), device))
  {
    StepVersions(t, r, device);
  }

  lemma RunSnoc(t: Tables, rs: seq<Request>, more: seq<Request>, r: Request)
    ensures Run(t, rs + (more + [r])) == Step(Run(t, rs + more), r)
  {
    var all := rs + (more + [r]);
    assert all[..|all| - 1] == rs + more && all[|all| - 1] == r;
  }

  /** Blobs are never dropped or changed. */
  lemma RunKeepsBlobs(t: Tables, rs: seq<Request>, more: seq<Request>)
    requires Valid(t)
    ensures BlobsKept(Run(t, rs), Run(t, rs + more))
  {
    RunValid(t, rs);
    BlobsKeptFrom(Run(t, rs), more);
    RunAppend(t, rs, more);
  }

  lemma {:induction false} BlobsKeptFrom(t: Tables, more: seq<Request>)
    requires Valid(t)
    ensures BlobsKept(t, Run(t, more))
  {
    if more != [] {
      var front := more[..|more| - 1];
      BlobsKeptFrom(t, front);
      RunValid(t, front);
      StepKeepsBlobs(Run(t, front), more[|more| - 1]);
    }
  }

  lemma {:induction false} DevicesKept(t: Tables, rs: seq<Request>)
    ensures Run(t, rs).devices == t.devices
  {
    if rs != [] { DevicesKept(t, rs[..|rs| - 1]); }
  }

  /** What the current manifest names is stored under the digest that names it. */
  lemma ListedIsStored(t: Tables, device: Id)
    requires Valid(t)
    ensures var m := Served(t, device);
      && (forall l :: l in m.listings ==>
            && l.digest in t.deploymentBlobs && Sha256(t.deploymentBlobs[l.digest]) == l.digest
            && t.deploymentBlobs[l.digest].Yaml?)
      && (m.bundle.Some? ==> m.bundle.value in t.bundleBlobs && Sha256(t.bundleBlobs[m.bundle.value]) == m.bundle.value)
  {
    assert ValidDevice(t, device);
    forall l | l in Served(t, device).listings ensures l.digest in t.deploymentBlobs {
      ListedIsRow(t, device, l);
    }
  }

  /** Whatever a manifest ever named can be fetched at any later time, with the digest it was
      named by. */
  lemma FetchableForever(t: Tables, rs: seq<Request>, more: seq<Request>, device: Id)
    requires Valid(t) && device in t.devices
    ensures var m := Served(Run(t, rs), device);
      && (forall l :: l in m.listings ==>
            var got := GetDeployment(Run(t, rs + more), device, l.digest);
            got.Success? && Sha256(got.value) == l.digest && got.value.Yaml?)
      && (m.bundle.Some? ==>
            var got := GetBundle(Run(t, rs + more), device, m.bundle.value);
            got.Success? && Sha256(got.value) == m.bundle.value)
  {
    RunValid(t, rs);
    RunKeepsBlobs(t, rs, more);
    DevicesKept(t, rs + more);
    ListedIsStored(Run(t, rs), device);
  }

  lemma LoadedIsRow(t: Tables, device: Id, d: Deployment)
    requires d in Load(t, device)
    ensures d.id in RowsOf(t, device) && RowsOf(t, device)[d.id] == d.digest
  {
    InIdOrderLists(Joined(t, device));
  }

  lemma ListedFrom(list: seq<Deployment>, l: Listing) returns (d: Deployment)
    requires l in ListingsOf(list)
    ensures d in list && l == Listing(d.id, d.digest)
  {
    var k :| 0 <= k < |list| && ListingsOf(list)[k] == l;
    d := list[k];
  }

  lemma ListedIsRow(t: Tables, device: Id, l: Listing)
    requires l in Served(t, device).listings
    ensures l.id in RowsOf(t, device) && RowsOf(t, device)[l.id] == l.digest
  {
    var d := ListedFrom(Load(t, device), l);
    LoadedIsRow(t, device, d);
  }

  lemma RowIsArchived(list: seq<Deployment>, id: Id)
    requires Honest(list) && id in RowsFrom(list)
    ensures RowsFrom(list)[id].Sha256?
    ensures Regular(id + ".yaml", RowsFrom(list)[id].content) in EntriesOf(list)
  {
    RowsFromKeys(list);
    var d: Deployment :| d in list && d.id == id && d.digest == RowsFrom(list)[id];
    var i :| 0 <= i < |list| && list[i] == d;
    assert EntriesOf(list)[i] == Regular(id + ".yaml", d.descriptor);
  }

  /** The bundle a manifest names is a whole archive that holds every descriptor it lists. */
  lemma BundleHoldsListed(t: Tables, device: Id, archive: Bytes)
    requires Valid(t)
    requires Served(t, device).bundle == Some(Sha256(archive))
    ensures archive.TarGz? && !archive.truncated
    ensures forall l :: l in Served(t, device).listings ==>
              l.digest.Sha256? && Regular(l.id + ".yaml", l.digest.content) in archive.entries
  {
    assert ValidDevice(t, device);
    var list: seq<Deployment> :| Archived(list, t.manifests[device].bundle, RowsOf(t, device));
    forall l | l in Served(t, device).listings
      ensures l.digest.Sha256? && Regular(l.id + ".yaml", l.digest.content) in archive.entries
    {
      ListedIsRow(t, device, l);
      RowIsArchived(list, l.id);
    }
  }

  /** Version 1 is the empty state only. */
  lemma VersionOneIsEmpty(t: Tables, device: Id)
    requires Valid(t)
    ensures Served(t, device).version >= 1
    ensures Served(t, device).version == 1 ==> Served(t, device) == Manifest(1, None, []) && RowsOf(t, device) == map[]
  {
    assert ValidDevice(t, device);
  }

  // ---- When the version stands still -----------------------------------------------

  /** A request keeps the version exactly when it rebuilds the very list that was last archived. */
  lemma VersionKeptIff(t: Tables, r: Request, archived: seq<Deployment>)
    requires Valid(t) && Handle(t, r).Success? && r.device in t.manifests
    requires Archived(archived, t.manifests[r.device].bundle, RowsOf(t, r.device))
    ensures Served(Step(t, r), r.device).version == Served(t, r.device).version <==>
              Edited(Load(t, r.device), EditOf(r).value) == Some(archived)
  {
    var list := StepIsPersist(t, r);
    PersistedVersion(t, r.device, list);
    if BundleOf(list) == BundleOf(archived) {
      BundleDeterminesList(list, archived);
    }
  }

  lemma PersistedVersion(t: Tables, device: Id, list: seq<Deployment>)
    requires device in t.manifests
    ensures var before, after := RowOf(t, device).version, RowOf(Persisted(t, device, list), device).version;
            after == if BundleOf(list) == t.manifests[device].bundle then before else before + 1
  {
  }

  /** The request repeats the descriptor that is stored. */
  ghost predicate Repeats(t: Tables, r: Request) {
    && r.Update? && EditOf(r).Success? && r.device in t.devices && r.device in t.manifests
    && r.id in RowsOf(t, r.device)
    && RowsOf(t, r.device)[r.id] == EditOf(r).value.deployment.digest
  }

  /** An update that repeats what is stored keeps the version exactly when the last archive was
      written in id order; the archive follows the order of the edits, a reload the order of ids. */
  lemma IdenticalUpdateKeepsVersionIff(t: Tables, r: Request, archived: seq<Deployment>)
    requires Valid(t) && Repeats(t, r)
    requires Archived(archived, t.manifests[r.device].bundle, RowsOf(t, r.device))
    ensures RowsOf(Step(t, r), r.device) == RowsOf(t, r.device)
    ensures Served(Step(t, r), r.device).version == Served(t, r.device).version <==> IdOrdered(archived)
  {
    RepeatSucceeds(t, r);
    VersionKeptIff(t, r, archived);
    LoadIsRows(t, r.device);
    if IdOrdered(archived) {
      OneIdOrder(Load(t, r.device), archived);
    }
  }

  /** The edit of a repeating update gives back the list it is handed. */
  lemma RepeatSucceeds(t: Tables, r: Request)
    requires Valid(t) && Repeats(t, r)
    ensures Edited(Load(t, r.device), EditOf(r).value) == Some(Load(t, r.device))
    ensures Handle(t, r).Success? && RowsOf(Step(t, r), r.device) == RowsOf(t, r.device)
  {
    LoadIsRows(t, r.device);
    ReplaceBySame(Load(t, r.device), EditOf(r).value.deployment);
  }

  /** Creating a deployment and then one with a lesser id archives them in that order, so repeating the
      update of the second bumps the version although nothing changes. */
  lemma IdenticalUpdateMayBump(t: Tables, device: Id, d: Descriptor, hi: Id, lo: Id)
    requires Initial(t) && device in t.devices && LexLeq(lo, hi) && lo != hi && (d.id == "" || d.id == lo)
    ensures var u := Run(t, [Create(device, Some(d), hi), Create(device, Some(d), lo)]);
      var again := Update(device, lo, Some(d));
      && RowsOf(Step(u, again), device) == RowsOf(u, device)
      && Served(Step(u, again), device).version == Served(u, device).version + 1
  {
    var first, second := Create(device, Some(d), hi), Create(device, Some(d), lo);
    RunOfTwo(t, first, second);
    BumpAfterTwo(t, Step(t, first), Step(Step(t, first), second), device, d, hi, lo);
  }

  lemma RunOfTwo(t: Tables, first: Request, second: Request)
    ensures Run(t, [first, second]) == Step(Step(t, first), second)
  {
    assert [first, second][..1] == [first] && [first][..0] == [];
    assert Run(t, [first]) == Step(Run(t, []), first);
  }

  lemma BumpAfterTwo(t: Tables, t1: Tables, u: Tables, device: Id, d: Descriptor, hi: Id, lo: Id)
    requires Initial(t) && device in t.devices && LexLeq(lo, hi) && lo != hi && (d.id == "" || d.id == lo)
    requires t1 == Step(t, Create(device, Some(d), hi)) && u == Step(t1, Create(device, Some(d), lo))
    ensures RowsOf(Step(u, Update(device, lo, Some(d))), device) == RowsOf(u, device)
    ensures Served(Step(u, Update(device, lo, Some(d))), device).version == Served(u, device).version + 1
  {
    var b, a := DeploymentOf(hi, d), DeploymentOf(lo, d);
    FirstCreate(t, Create(device, Some(d), hi), b);
    NextCreate(t1, Create(device, Some(d), lo), [b], a);
    RepeatOfTwo(u, Update(device, lo, Some(d)), [b] + [a], b, a);
  }

  lemma RepeatOfTwo(u: Tables, r: Request, list: seq<Deployment>, b: Deployment, a: Deployment)
    requires Valid(u) && r.device in u.devices && r.device in u.manifests
    requires list == [b] + [a] && Honest([b]) && Honest([a]) && LexLeq(a.id, b.id) && a.id != b.id
    requires u.manifests[r.device].bundle == BundleOf(list) && RowsOf(u, r.device) == RowsFrom(list)
    requires r.Update? && r.id == a.id && EditOf(r) == Success(Replace(a))
    ensures RowsOf(Step(u, r), r.device) == RowsOf(u, r.device)
    ensures Served(Step(u, r), r.device).version == Served(u, r.device).version + 1
  {
    assert b in [b] && a in [a];
    OutOfOrder(list, b, a);
    RepeatOutOfOrder(u, r, list);
  }

  lemma NextCreate(t: Tables, r: Request, list: seq<Deployment>, d: Deployment)
    requires Valid(t) && r.device in t.devices && r.Create? && EditOf(r) == Success(Append(d)) &&
      Current(t, r.device) == list
    ensures var u := Step(t, r);
            && Valid(u) && r.device in u.manifests && r.device in u.devices
            && u.manifests[r.device].bundle == BundleOf(list + [d]) && RowsOf(u, r.device) == RowsFrom(list + [d])
  {
    StepValid(t, r);
  }

  lemma FirstCreate(t: Tables, r: Request, d: Deployment)
    requires Initial(t) && r.device in t.devices && r.Create? && EditOf(r) == Success(Append(d))
    ensures var u := Step(t, r);
            && Valid(u) && r.device in u.manifests && r.device in u.devices && Current(u, r.device) == [d]
  {
    InitialValid(t);
    NextCreate(t, r, [], d);
    assert [] + [d] == [d] && [d][..0] == [];
    assert RowsFrom([d]) == RowsFrom([])[d.id := d.digest];
    RequestIsHonest(r);
    LoadOfOne(Step(t, r), r.device, d);
  }

  lemma OutOfOrder(list: seq<Deployment>, b: Deployment, a: Deployment)
    requires list == [b] + [a] && LexLeq(a.id, b.id) && a.id != b.id
    ensures !IdOrdered(list) && a.id in RowsFrom(list) && RowsFrom(list)[a.id] == a.digest
  {
    RowsFromDistinct(list);
    assert list[1] in list;
    if LexLeq(b.id, a.id) { LexAntisymmetric(a.id, b.id); }
    assert !LexLeq(list[0].id, list[1].id);
  }

  lemma RepeatOutOfOrder(u: Tables, r: Request, list: seq<Deployment>)
    requires Valid(u) && Repeats(u, r) && Archived(list, u.manifests[r.device].bundle, RowsOf(u, r.device)) &&
      !IdOrdered(list)
    ensures RowsOf(Step(u, r), r.device) == RowsOf(u, r.device)
    ensures Served(Step(u, r), r.device).version == Served(u, r.device).version + 1
  {
    IdenticalUpdateKeepsVersionIff(u, r, list);
    RepeatSucceeds(u, r);
  }

  lemma LoadOfOne(t: Tables, device: Id, d: Deployment)
    requires Valid(t) && RowsOf(t, device) == map[d.id := d.digest] && d.digest == Sha256(d.descriptor)
    ensures Load(t, device) == [d]
  {
    LoadIsRows(t, device);
    assert ValidDevice(t, device);
    assert Joined(t, device) == map[d.id := d];
    OrderedSameElements(Load(t, device), [d]);
  }

  lemma ReplaceBySame(list: seq<Deployment>, d: Deployment)
    requires Honest(list) && DistinctIds(list) && d.digest == Sha256(d.descriptor)
    requires d.id in RowsFrom(list) && RowsFrom(list)[d.id] == d.digest
    ensures Edited(list, Replace(d)) == Some(list)
  {
    RowsFromKeys(list);
    RowsFromDistinct(list);
    var i := IndexOf(list, d.id);
    assert i < |list| && list[i] in list;
    assert list[i := d] == list;
  }

  /** Honest lists in id order with the same rows are the same list. */
  lemma {:induction false} OneIdOrder(a: seq<Deployment>, b: seq<Deployment>)
    requires Honest(a) && Honest(b) && IdOrdered(a) && IdOrdered(b)
    requires RowsFrom(a) == RowsFrom(b)
    ensures a == b
  {
    RowsFromDistinct(a);
    RowsFromDistinct(b);
    RowsFromKeys(a);
    RowsFromKeys(b);
    forall d | d in a ensures d in b {
      assert d.id in RowsFrom(b);
      var e: Deployment :| e in b && e.id == d.id && e.digest == RowsFrom(b)[d.id];
      assert d == e;
    }
    forall d | d in b ensures d in a {
      assert d.id in RowsFrom(a);
      var e: Deployment :| e in a && e.id == d.id && e.digest == RowsFrom(a)[d.id];
      assert d == e;
    }
    OrderedSameElements(a, b);
  }

  lemma {:induction false} OrderedSameElements(a: seq<Deployment>, b: seq<Deployment>)
    requires IdOrdered(a) && IdOrdered(b)
    requires forall d :: d in a <==> d in b
    ensures a == b
    decreases |a|
  {
    assert (a != [] ==> a[0] in a) && (b != [] ==> b[0] in b);
    if a != [] {
      var i, j :| 0 <= i < |b| && b[i] == a[0] && 0 <= j < |a| && a[j] == b[0];
      if i > 0 && j > 0 { LexAntisymmetric(a[0].id, b[0].id); }
      assert a[0] == b[0];
      assert forall d :: d in a[1..] <==> d in a && d != a[0];
      assert forall d :: d in b[1..] <==> d in b && d != b[0];
      OrderedSameElements(a[1..], b[1..]);
    }
  }

  // ---- What a request means to the rows --------------------------------------------

  ghost predicate RowsChangeAsAsked(before: map<Id, Digest>, after: map<Id, Digest>, r: Request) {
    match r
    case Create(_, parsed, uuid) =>
      parsed.Some? && after == before[uuid := Sha256(Render(parsed.value.(id := uuid)))]
    case Update(_, id, parsed) =>
      id in before && parsed.Some? && after == before[id := Sha256(Render(parsed.value.(id := id)))]
    case Delete(_, id) =>
      id in before && after == before - {id}
  }

  /** The body holds a descriptor, which on an update names no deployment or the one of the path. */
  predicate Acceptable(r: Request) {
    match r
    case Create(_, parsed, _) => parsed.Some?
    case Update(_, id, parsed) => parsed.Some? && parsed.value.id in {"", id}
    case Delete(_, _) => true
  }

  /** Create adds or overwrites one row, update overwrites one, delete drops one. A failed request changes
      nothing. It fails for its descriptor exactly if that is missing or contradicts the path, otherwise
      for its device exactly if that is unknown, otherwise for its row exactly if that is missing. */
  lemma RequestOnRows(t: Tables, r: Request)
    requires Valid(t)
    ensures Handle(t, r).Failure? ==> Step(t, r) == t
    ensures Handle(t, r).Success? ==> RowsChangeAsAsked(RowsOf(t, r.device), RowsOf(Step(t, r), r.device), r)
    ensures Handle(t, r).Success? <==>
              Acceptable(r) && r.device in t.devices && (r.Create? || r.id in RowsOf(t, r.device))
    ensures Handle(t, r) == Failure(InvalidDescriptor) <==> !Acceptable(r)
    ensures Handle(t, r) == Failure(DeviceNotFound) <==> Acceptable(r) && r.device !in t.devices
    ensures Handle(t, r) == Failure(DeploymentNotFound) <==>
              Acceptable(r) && r.device in t.devices && !r.Create? && r.id !in RowsOf(t, r.device)
  {
    if r.device in t.devices && EditOf(r).Success? {
      var list, edit := Current(t, r.device), EditOf(r).value;
      assert ValidDevice(t, r.device);
      LoadIsRows(t, r.device);
      EditOnRows(list, edit);
    }
  }

  ghost function TouchedId(edit: Edit): Id {
    if edit.Remove? then edit.id else edit.deployment.id
  }

  lemma FoundIff(list: seq<Deployment>, id: Id)
    ensures IndexOf(list, id) < |list| <==> id in RowsFrom(list)
  {
    RowsFromKeys(list);
    var i := IndexOf(list, id);
    if i < |list| { assert list[i] in list; }
  }

  lemma RowsAfterAppend(list: seq<Deployment>, d: Deployment)
    ensures RowsFrom(list + [d]) == RowsFrom(list)[d.id := d.digest]
  {
    assert (list + [d])[..|list|] == list;
  }

  lemma EditOnRows(list: seq<Deployment>, edit: Edit)
    requires DistinctIds(list)
    ensures Edited(list, edit).Some? <==> edit.Append? || TouchedId(edit) in RowsFrom(list)
    ensures Edited(list, edit).Some? ==>
      RowsFrom(Edited(list, edit).value) ==
      if edit.Remove? then RowsFrom(list) - {edit.id} else RowsFrom(list)[edit.deployment.id := edit.deployment.digest]
  {
    var i := IndexOf(list, TouchedId(edit));
    FoundIff(list, TouchedId(edit));
    if edit.Append? {
      RowsAfterAppend(list, edit.deployment);
    } else if i < |list| {
      if edit.Replace? { RowsAfterReplace(list, i, edit.deployment); } else { RowsAfterRemove(list, i); }
    }
  }

  lemma RowsAfterReplace(list: seq<Deployment>, i: nat, d: Deployment)
    requires i < |list| && list[i].id == d.id && DistinctIds(list)
    ensures d.id in RowsFrom(list) && RowsFrom(list[i := d]) == RowsFrom(list)[d.id := d.digest]
  {
    var after, rows := list[i := d], RowsFrom(list)[d.id := d.digest];
    RowsFromDistinct(list);
    RowsFromKeys(list);
    assert list[i] in list;
    forall x | x in after ensures x.id in rows && rows[x.id] == x.digest {
      var k :| 0 <= k < |after| && after[k] == x;
      assert list[k] in list;
    }
    forall id | id in rows ensures exists x :: x in after && x.id == id {
      if id == d.id {
        assert after[i] == d;
      } else {
        var x :| x in list && x.id == id;
        var k :| 0 <= k < |list| && list[k] == x;
        assert after[k] == x;
      }
    }
    SameRows(after, rows);
  }

  lemma RemoveKeepsOthers(list: seq<Deployment>, i: nat)
    requires i < |list| && DistinctIds(list)
    ensures DistinctIds(list[..i] + list[i + 1..])
    ensures forall x :: x in list[..i] + list[i + 1..] <==> x in list && x.id != list[i].id
  {
    var rest := list[..i] + list[i + 1..];
    assert forall k :: 0 <= k < |rest| ==> rest[k] == if k < i then list[k] else list[k + 1];
    forall x | x in list && x.id != list[i].id ensures x in rest {
      var k :| 0 <= k < |list| && list[k] == x;
      assert rest[if k < i then k else k - 1] == x;
    }
  }

  lemma RowsAfterRemove(list: seq<Deployment>, i: nat)
    requires i < |list| && DistinctIds(list)
    ensures list[i].id in RowsFrom(list) && RowsFrom(list[..i] + list[i + 1..]) == RowsFrom(list) - {list[i].id}
  {
    RemoveKeepsOthers(list, i);
    RowsFromDistinct(list);
    RowsFromKeys(list);
    assert list[i] in list;
    SameRows(list[..i] + list[i + 1..], RowsFrom(list) - {list[i].id});
  }
}
