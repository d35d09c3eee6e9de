/** Byte strings as the desired-state protocol sees them. YAML rendering, tar+gzip and
    SHA-256 are free constructors: two values are equal only if built from equal parts. */
module Content {
  import opened Prelude

  datatype Descriptor = Descriptor(applicationId: string, name: string, id: string, spec: string)

  /** `Yaml(d, k)` are the texts that parse to `d`; layout 0 is the one `yaml.Marshal` writes.
      A truncated archive is one whose tar stream breaks off after the given entries. */
  datatype Bytes =
    | Yaml(descriptor: Descriptor, layout: nat)
    | TarGz(entries: seq<Entry>, truncated: bool)
    | Raw(text: string)

  /** A `Damaged` entry has a header but its content cannot be read. */
  datatype Entry = Directory(name: string) | Regular(name: string, content: Bytes) | Damaged(name: string)

  /** `Other` are the digest texts that the client's pattern or algorithm check refuses. */
  datatype Digest = Sha256(content: Bytes) | Other(text: string)

  function Render(d: Descriptor): Bytes { Yaml(d, 0) }

  function Parse(b: Bytes): Option<Descriptor> {
    if b.Yaml? then Some(b.descriptor) else None
  }

  /** One line of a manifest: the id of a deployment and the digest of its descriptor. */
  datatype Listing = Listing(id: string, digest: Digest)

  /** The manifest response. Its ETag is the digest of its JSON text, so the response itself
      stands for its ETag. */
  datatype Manifest = Manifest(version: nat, bundle: Option<Digest>, listings: seq<Listing>)
}
