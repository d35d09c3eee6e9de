/** The desired-state server on values: tables, edits, the rebuilt bundle, the persisted diff. */
module ServerModel {
  import opened Prelude
  import opened Content
  import opened Text

  type Id = string

  datatype Deployment = Deployment(id: Id, descriptor: Bytes, digest: Digest)

  datatype ManifestRow = ManifestRow(version: nat, bundle: Option<Digest>)

  /** `rows[device][id]` is the digest in application_deployments, whose key is (device_id, id). */
  datatype Tables = Tables(
    devices: set<Id>,
    manifests: map<Id, ManifestRow>,
    rows: map<Id, map<Id, Digest>>,
    deploymentBlobs: map<Digest, Bytes>,
    bundleBlobs: map<Digest, Bytes>)

  datatype Error = DeviceNotFound | DeploymentNotFound | InvalidDescriptor | BundleNotFound

  // ---- Reading ---------------------------------------------------------------------

  function RowsOf(t: Tables, device: Id): map<Id, Digest> {
    if device in t.rows then t.rows[device] else map[]
  }

  /** Each row of a device joined with its blob. */
  function Joined(t: Tables, device: Id): map<Id, Deployment> {
    var rows := RowsOf(t, device);
    map id | id in rows && rows[id] in t.deploymentBlobs :: Deployment(id, t.deploymentBlobs[rows[id]], rows[id])
  }

  function InIdOrder(joined: map<Id, Deployment>): seq<Deployment> {
    var ids := InOrder(joined.Keys);
    assert forall i :: 0 <= i < |ids| ==> ids[i] in ids;
    seq(|ids|, i requires 0 <= i < |ids| => joined[ids[i]])
  }

  /** The joined rows of a device, ordered by id. */
  function Load(t: Tables, device: Id): seq<Deployment> {
    InIdOrder(Joined(t, device))
  }

  /** The stored manifest row, or the version-1 empty state that stands in for a missing one. */
  function RowOf(t: Tables, device: Id): ManifestRow {
    if device in t.manifests then t.manifests[device] else ManifestRow(1, None)
  }

  function ListingsOf(list: seq<Deployment>): seq<Listing> {
    seq(|list|, i requires 0 <= i < |list| => Listing(list[i].id, list[i].digest))
  }

  /** What a manifest request answers; without a manifest row no deployment is listed. */
  function Served(t: Tables, device: Id): Manifest {
    Manifest(RowOf(t, device).version, RowOf(t, device).bundle,
             if device in t.manifests then ListingsOf(Load(t, device)) else [])
  }

  function GetManifest(t: Tables, device: Id): Result<Manifest, Error> {
    if device !in t.devices then Failure(DeviceNotFound) else Success(Served(t, device))
  }

  function GetDeployment(t: Tables, device: Id, digest: Digest): Result<Bytes, Error> {
    if device !in t.devices then Failure(DeviceNotFound)
    else if digest in t.deploymentBlobs then Success(t.deploymentBlobs[digest])
    else Failure(DeploymentNotFound)
  }

  function GetBundle(t: Tables, device: Id, digest: Digest): Result<Bytes, Error> {
    if device !in t.devices then Failure(DeviceNotFound)
    else if digest in t.bundleBlobs then Success(t.bundleBlobs[digest])
    else Failure(BundleNotFound)
  }

  // ---- Editing ---------------------------------------------------------------------

  /** The three callbacks of the service. */
  datatype Edit = Append(deployment: Deployment) | Replace(deployment: Deployment) | Remove(id: Id)

  /** The position of the first deployment with this id, or the length of the list. */
  function IndexOf(list: seq<Deployment>, id: Id): (i: nat)
    ensures i <= |list|
    ensures i < |list| ==> list[i].id == id
    ensures forall j :: 0 <= j < i ==> list[j].id != id
  {
    if list == [] || list[0].id == id then 0 else 1 + IndexOf(list[1..], id)
  }

  function Edited(list: seq<Deployment>, edit: Edit): Option<seq<Deployment>> {
    match edit
    case Append(d) => Some(list + [d])
    case Replace(d) =>
      var i := IndexOf(list, d.id);
      if i < |list| then Some(list[i := d]) else None
    case Remove(id) =>
      var i := IndexOf(list, id);
      if i < |list| then Some(list[..i] + list[i + 1..]) else None
  }

  function EntriesOf(list: seq<Deployment>): seq<Entry> {
    seq(|list|, i requires 0 <= i < |list| => Regular(list[i].id + ".yaml", list[i].descriptor))
  }

  function ArchiveOf(list: seq<Deployment>): Option<Bytes> {
    if list == [] then None else Some(TarGz(EntriesOf(list), false))
  }

  function BundleOf(list: seq<Deployment>): Option<Digest> {
    if list == [] then None else Some(Sha256(TarGz(EntriesOf(list), false)))
  }

  /** The version grows by one exactly when the bundle digest changes. */
  function Rebuilt(row: ManifestRow, list: seq<Deployment>): ManifestRow {
    var bundle := BundleOf(list);
    ManifestRow(if bundle == row.bundle then row.version else row.version + 1, bundle)
  }

  // ---- Persisting ------------------------------------------------------------------

  /** The rows a list stands for; a later deployment wins over an earlier one with its id. */
  function RowsFrom(list: seq<Deployment>): map<Id, Digest> {
    if list == [] then map[]
    else RowsFrom(list[..|list| - 1])[list[|list| - 1].id := list[|list| - 1].digest]
  }

  /** Insert or ignore. */
  function WithBlob(blobs: map<Digest, Bytes>, digest: Digest, content: Bytes): map<Digest, Bytes> {
    if digest in blobs then blobs else blobs[digest := content]
  }

  function WithBlobs(blobs: map<Digest, Bytes>, list: seq<Deployment>): map<Digest, Bytes> {
    if list == [] then blobs
    else
      var last := list[|list| - 1];
      WithBlob(WithBlobs(blobs, list[..|list| - 1]), last.digest, last.descriptor)
  }

  function Persisted(t: Tables, device: Id, list: seq<Deployment>): Tables {
    var bundle := BundleOf(list);
    Tables(
      t.devices,
      t.manifests[device := Rebuilt(RowOf(t, device), list)],
      t.rows[device := RowsFrom(list)],
      WithBlobs(t.deploymentBlobs, list),
      if list == [] then t.bundleBlobs else WithBlob(t.bundleBlobs, bundle.value, ArchiveOf(list).value))
  }

  /** The list a callback is handed: a device without a manifest row starts from nothing. */
  function Current(t: Tables, device: Id): seq<Deployment> {
    if device in t.manifests then Load(t, device) else []
  }

  /** The transaction: a failed edit leaves the tables as they were. */
  function Upsert(t: Tables, device: Id, edit: Edit): Result<Tables, Error> {
    if device !in t.devices then Failure(DeviceNotFound)
    else match Edited(Current(t, device), edit)
      case None => Failure(DeploymentNotFound)
      case Some(list) => Success(Persisted(t, device, list))
  }

  // ---- Requests --------------------------------------------------------------------

  /** A mutating request. `parsed` is the descriptor in the body, if it parses and validates;
      `uuid` is the id drawn for a new deployment. */
  datatype Request =
    | Create(device: Id, parsed: Option<Descriptor>, uuid: Id)
    | Update(device: Id, id: Id, parsed: Option<Descriptor>)
    | Delete(device: Id, id: Id)

  function DeploymentOf(id: Id, d: Descriptor): Deployment {
    var rendered := Render(d.(id := id));
    Deployment(id, rendered, Sha256(rendered))
  }

  function EditOf(r: Request): Result<Edit, Error> {
    match r
    case Create(_, parsed, uuid) =>
      if parsed.None? then Failure(InvalidDescriptor)
      else Success(Append(DeploymentOf(uuid, parsed.value)))
    case Update(_, id, parsed) =>
      if parsed.None? || (parsed.value.id != "" && parsed.value.id != id) then Failure(InvalidDescriptor)
      else Success(Replace(DeploymentOf(id, parsed.value)))
    case Delete(_, id) => Success(Remove(id))
  }

  function Handle(t: Tables, r: Request): Result<Tables, Error> {
    match EditOf(r)
    case Failure(e) => Failure(e)
    case Success(edit) => Upsert(t, r.device, edit)
  }

  /** The tables after a request, whether it succeeded or not. */
  function Step(t: Tables, r: Request): Tables {
    var result := Handle(t, r);
    if result.Success? then result.value else t
  }

  function Run(t: Tables, rs: seq<Request>): Tables {
    if rs == [] then t else Step(Run(t, rs[..|rs| - 1]), rs[|rs| - 1])
  }

  /** The state of a new database. */
  predicate Initial(t: Tables) {
    t.manifests == map[] && t.rows == map[] && t.deploymentBlobs == map[] && t.bundleBlobs == map[]
  }
}
