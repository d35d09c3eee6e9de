/** The desired-state server as it runs: tables that statements change one row at a time, a
    manifest that callbacks edit in place, and the transaction that joins them. */
module Server {
  import opened Prelude
  import opened Content
  import opened ServerModel
  import opened ServerProofs

  /** The tables and their statements. Foreign keys are preconditions of the statements they guard. */
  class Database {
    var devices: set<Id>
    var manifests: map<Id, ManifestRow>
    var rows: map<Id, map<Id, Digest>>
    var deploymentBlobs: map<Digest, Bytes>
    var bundleBlobs: map<Digest, Bytes>

    function Snapshot(): Tables
      reads this
    {
      Tables(devices, manifests, rows, deploymentBlobs, bundleBlobs)
    }

    method DeleteDeployment(device: Id, id: Id)
      modifies this`rows
      ensures rows == old(rows)[device := old(RowsOf(Snapshot(), device)) - {id}]
    {
      rows := rows[device := RowsOf(Snapshot(), device) - {id}];
    }

    method UpsertDeployment(device: Id, id: Id, digest: Digest)
      requires device in devices && digest in deploymentBlobs
      modifies this`rows
      ensures rows == old(rows)[device := old(RowsOf(Snapshot(), device))[id := digest]]
    {
      rows := rows[device := RowsOf(Snapshot(), device)[id := digest]];
    }

    method UpsertManifest(device: Id, row: ManifestRow)
      requires device in devices && (row.bundle.Some? ==> row.bundle.value in bundleBlobs)
      modifies this`manifests
      ensures manifests == old(manifests)[device := row]
    {
      manifests := manifests[device := row];
    }

    method InsertBundleBlob(digest: Digest, archive: Bytes)
      modifies this`bundleBlobs
      ensures bundleBlobs == WithBlob(old(bundleBlobs), digest, archive)
    {
      if digest !in bundleBlobs { bundleBlobs := bundleBlobs[digest := archive]; }
    }

    method InsertDeploymentBlob(digest: Digest, descriptor: Bytes)
      modifies this`deploymentBlobs
      ensures deploymentBlobs == WithBlob(old(deploymentBlobs), digest, descriptor)
    {
      if digest !in deploymentBlobs { deploymentBlobs := deploymentBlobs[digest := descriptor]; }
    }
  }

  /** The manifest that a transaction hands to its callback. */
  class WorkingManifest {
    var version: nat
    var archive: Option<Bytes>
    var bundle: Option<Digest>
    var deployments: seq<Deployment>

    constructor (row: ManifestRow, list: seq<Deployment>)
      ensures version == row.version && bundle == row.bundle && deployments == list && archive == None
    {
      version, bundle, deployments, archive := row.version, row.bundle, list, None;
    }

    function Row(): ManifestRow
      reads this
    {
      ManifestRow(version, bundle)
    }

    method RebuildBundle()
      modifies this`version, this`archive, this`bundle
      ensures Row() == Rebuilt(old(Row()), deployments) && archive == ArchiveOf(deployments)
    {
      var files: seq<Entry> := [];
      for i := 0 to |deployments|
        invariant files == EntriesOf(deployments[..i])
      {
        files := files + [Regular(deployments[i].id + ".yaml", deployments[i].descriptor)];
      }
      assert deployments[..|deployments|] == deployments;
      var previous := bundle;
      if |files| == 0 {
        archive, bundle := None, None;
      } else {
        archive := Some(TarGz(files, false));
        bundle := Some(Sha256(TarGz(files, false)));
      }
      if bundle != previous { version := version + 1; }
    }

    /** Search from the front, then append, overwrite or splice. */
    method Apply(edit: Edit) returns (found: bool)
      modifies this`deployments
      ensures found == Edited(old(deployments), edit).Some?
      ensures deployments == if found then Edited(old(deployments), edit).value else old(deployments)
    {
      if edit.Append? {
        deployments := deployments + [edit.deployment];
        return true;
      }
      var id := if edit.Replace? then edit.deployment.id else edit.id;
      var i := 0;
      while i < |deployments| && deployments[i].id != id
        invariant i <= IndexOf(deployments, id)
      {
        i := i + 1;
      }
      if i == |deployments| { return false; }
      deployments := if edit.Replace? then deployments[i := edit.deployment]
                     else deployments[..i] + deployments[i + 1..];
      return true;
    }
  }

  /** The repository: one edit of one device in one transaction. */
  method UpsertDeployments(db: Database, device: Id, edit: Edit) returns (result: Result<(), Error>)
    requires Valid(db.Snapshot())
    requires edit.Remove? || Honest([edit.deployment])
    modifies db
    ensures Upsert(old(db.Snapshot()), device, edit).Failure? ==>
              result == Failure(Upsert(old(db.Snapshot()), device, edit).error) && db.Snapshot() == old(db.Snapshot())
    ensures Upsert(old(db.Snapshot()), device, edit).Success? ==>
              result.Success? && db.Snapshot() == Upsert(old(db.Snapshot()), device, edit).value
  {
    if device !in db.devices { return Failure(DeviceNotFound); }
    ghost var before := db.Snapshot();
    var manifest := new WorkingManifest(RowOf(db.Snapshot(), device), Current(db.Snapshot(), device));
    var original := IdsOf(manifest.deployments);
    var found := manifest.Apply(edit);
    if !found { return Failure(DeploymentNotFound); }
    manifest.RebuildBundle();
    StartsFromRows(before, device, edit);
    Persist(db, device, original, manifest);
    return Success(());
  }

  /** Every row of the device is in the list the callback starts from, and no edit that succeeds
      leaves a device that had nothing with nothing. */
  lemma StartsFromRows(t: Tables, device: Id, edit: Edit)
    requires Valid(t) && Edited(Current(t, device), edit).Some?
    ensures IdsOf(Current(t, device)) == RowsOf(t, device).Keys
    ensures Edited(Current(t, device), edit) == Some([]) ==> device in t.rows
  {
    assert ValidDevice(t, device);
    LoadIsRows(t, device);
    RowsFromIds(Current(t, device));
    if Edited(Current(t, device), edit) == Some([]) {
      assert Current(t, device) != [] && IdsOf(Current(t, device)) != {} by {
        assert Current(t, device)[0].id in IdsOf(Current(t, device));
      }
    }
  }

  lemma RowsFromIds(list: seq<Deployment>)
    ensures IdsOf(list) == RowsFrom(list).Keys
  {
    RowsFromKeys(list);
  }

  /** Delete the rows that went, then write bundle, manifest, descriptors and rows. */
  method Persist(db: Database, device: Id, original: set<Id>, manifest: WorkingManifest)
    requires device in db.devices && original == RowsOf(db.Snapshot(), device).Keys
    requires manifest.deployments == [] ==> device in db.rows
    requires manifest.Row() == Rebuilt(RowOf(db.Snapshot(), device), manifest.deployments)
    requires manifest.archive == ArchiveOf(manifest.deployments)
    modifies db
    ensures db.Snapshot() == Persisted(old(db.Snapshot()), device, manifest.deployments)
  {
    ghost var before := db.rows;
    DropMissing(db, device, original, manifest.deployments);
    if manifest.archive.Some? && manifest.bundle.Some? {
      db.InsertBundleBlob(manifest.bundle.value, manifest.archive.value);
    }
    db.UpsertManifest(device, ManifestRow(manifest.version, manifest.bundle));
    ghost var dropped := db.rows;
    UpsertAll(db, device, manifest.deployments);
    DiffLeavesRows(before, dropped, db.rows, device, manifest.deployments);
  }

  function IdsOf(list: seq<Deployment>): set<Id> { set d | d in list :: d.id }

  /** Delete, in any order, the rows whose id the edited list no longer has. */
  method DropMissing(db: Database, device: Id, original: set<Id>, list: seq<Deployment>)
    requires original == RowsOf(db.Snapshot(), device).Keys
    modifies db`rows
    ensures db.rows == if device in old(db.rows)
                       then old(db.rows)[device := old(db.rows)[device] - (original - IdsOf(list))]
                       else old(db.rows)
  {
    var gone := original - IdsOf(list);
    ghost var rows, dropped := RowsOf(db.Snapshot(), device), {};
    assert rows - dropped == rows;
    while gone != {}
      invariant dropped + gone == original - IdsOf(list)
      invariant db.rows == if device in old(db.rows)
        then old(db.rows)[device := old(db.rows)[device] - dropped] else old(db.rows)
    {
      var id :| id in gone;
      db.DeleteDeployment(device, id);
      assert rows - dropped - {id} == rows - (dropped + {id});
      gone, dropped := gone - {id}, dropped + {id};
    }
  }

  method UpsertAll(db: Database, device: Id, list: seq<Deployment>)
    requires device in db.devices
    modifies db`rows, db`deploymentBlobs
    ensures db.deploymentBlobs == WithBlobs(old(db.deploymentBlobs), list)
    ensures db.rows == if list == [] then old(db.rows)
                       else old(db.rows)[device := RowsOf(old(db.Snapshot()), device) + RowsFrom(list)]
  {
    ghost var base := RowsOf(db.Snapshot(), device);
    for i := 0 to |list|
      invariant db.deploymentBlobs == WithBlobs(old(db.deploymentBlobs), list[..i])
      invariant db.rows == if i == 0 then old(db.rows) else old(db.rows)[device := base + RowsFrom(list[..i])]
    {
      NextRow(base, old(db.deploymentBlobs), list, i);
      db.InsertDeploymentBlob(list[i].digest, list[i].descriptor);
      db.UpsertDeployment(device, list[i].id, list[i].digest);
    }
    assert list[..|list|] == list;
  }

  lemma NextRow(base: map<Id, Digest>, blobs: map<Digest, Bytes>, list: seq<Deployment>, i: nat)
    requires i < |list|
    ensures (base + RowsFrom(list[..i]))[list[i].id := list[i].digest] == base + RowsFrom(list[..i + 1])
    ensures WithBlob(WithBlobs(blobs, list[..i]), list[i].digest, list[i].descriptor) == WithBlobs(blobs, list[..i + 1])
    ensures i == 0 ==> base + RowsFrom(list[..i]) == base
  {
    assert list[..i + 1][..i] == list[..i];
  }

  /** Deleting what the list lacks and writing what it has leaves exactly its rows. */
  lemma DiffIsRows(rows: map<Id, Digest>, list: seq<Deployment>)
    ensures rows - (rows.Keys - IdsOf(list)) + RowsFrom(list) == RowsFrom(list)
    ensures list == [] ==> rows - (rows.Keys - IdsOf(list)) == map[]
  {
    RowsFromKeys(list);
  }

  lemma DiffLeavesRows(
    before: map<Id, map<Id, Digest>>, dropped: map<Id, map<Id, Digest>>, after: map<Id, map<Id, Digest>>, device: Id,
    list: seq<Deployment>)
    requires list == [] ==> device in before
    requires dropped == if device in before
      then before[device := before[device] - (before[device].Keys - IdsOf(list))] else before
    requires after == if list == [] then dropped
                      else dropped[device := (if device in dropped then dropped[device] else map[]) + RowsFrom(list)]
    ensures after == before[device := RowsFrom(list)]
  {
    DiffIsRows(if device in before then before[device] else map[], list);
  }

  // ---- The service -----------------------------------------------------------------

  method CreateDeployment(db: Database, device: Id, parsed: Option<Descriptor>, uuid: Id)
    returns (result: Result<Deployment, Error>)
    requires Valid(db.Snapshot())
    modifies db
    ensures db.Snapshot() == Step(old(db.Snapshot()), Create(device, parsed, uuid)) && Valid(db.Snapshot())
    ensures result.Success? <==> Handle(old(db.Snapshot()), Create(device, parsed, uuid)).Success?
    ensures result.Failure? ==> Handle(old(db.Snapshot()), Create(device, parsed, uuid)) == Failure(result.error)
    ensures result == Failure(InvalidDescriptor) <==> !Acceptable(Create(device, parsed, uuid))
    ensures result.Success? ==>
      result.value.id == uuid && result.value.descriptor == Render(parsed.value.(id := uuid)) &&
      result.value.digest == Sha256(result.value.descriptor)
  {
    StepValid(db.Snapshot(), Create(device, parsed, uuid));
    if parsed.None? { return Failure(InvalidDescriptor); }
    var d := DeploymentOf(uuid, parsed.value);
    var outcome := UpsertDeployments(db, device, Append(d));
    if outcome.Failure? { return Failure(outcome.error); }
    return Success(d);
  }

  method UpdateDeployment(db: Database, device: Id, id: Id, parsed: Option<Descriptor>)
    returns (result: Result<Deployment, Error>)
    requires Valid(db.Snapshot())
    modifies db
    ensures db.Snapshot() == Step(old(db.Snapshot()), Update(device, id, parsed)) && Valid(db.Snapshot())
    ensures result.Success? <==> Handle(old(db.Snapshot()), Update(device, id, parsed)).Success?
    ensures result.Failure? ==> Handle(old(db.Snapshot()), Update(device, id, parsed)) == Failure(result.error)
    ensures result == Failure(InvalidDescriptor) <==> !Acceptable(Update(device, id, parsed))
    ensures result.Success? ==>
      result.value.id == id && result.value.descriptor == Render(parsed.value.(id := id)) &&
      result.value.digest == Sha256(result.value.descriptor)
  {
    StepValid(db.Snapshot(), Update(device, id, parsed));
    if parsed.None? { return Failure(InvalidDescriptor); }
    if parsed.value.id != "" && parsed.value.id != id { return Failure(InvalidDescriptor); }
    var d := DeploymentOf(id, parsed.value);
    var outcome := UpsertDeployments(db, device, Replace(d));
    if outcome.Failure? { return Failure(outcome.error); }
    return Success(d);
  }

  method DeleteDeployment(db: Database, device: Id, id: Id) returns (result: Result<(), Error>)
    requires Valid(db.Snapshot())
    modifies db
    ensures db.Snapshot() == Step(old(db.Snapshot()), Delete(device, id)) && Valid(db.Snapshot())
    ensures result.Success? <==> Handle(old(db.Snapshot()), Delete(device, id)).Success?
    ensures result.Failure? ==> Handle(old(db.Snapshot()), Delete(device, id)) == Failure(result.error)
  {
    StepValid(db.Snapshot(), Delete(device, id));
    result := UpsertDeployments(db, device, Remove(id));
  }
}
