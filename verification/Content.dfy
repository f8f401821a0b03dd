/** The values that every component of a bucket shares.

  The blob store is content addressed: a hash names exactly one blob. The model takes that literally, a `Hash` is
  the injective constructor `HashOf` applied to the blob it names. Holding a hash is not holding the blob: a store
  is the set of hashes whose blobs are present, and a blob can be read only when its hash is in the store.

  Encryption, key wrapping, signing and encoding are their ideal forms: constructors that only the matching key,
  recipient or signer can open.
  */
module Content {

  datatype Option<+T> = None | Some(value: T)

  /** Directory and file names, relative to the root of a mount: one string for each component. */
  type Path = seq<string>

  /** An Ed25519 public key. Keys are totally ordered. */
  type PublicKey = nat

  datatype SecretKey = SecretKey(public: PublicKey)

  /** A symmetric content key. */
  type Secret = nat

  type Uuid = nat

  /** Blobs in the store. A sealed blob opens only under the secret that sealed it. */
  datatype Blob =
    | Sealed(secret: Secret, plain: Plain)
    | PinList(pins: set<Hash>)
    | ManifestBlob(manifest: Manifest)
    | Raw(bytes: seq<bv8>)

  datatype Plain =
    | NodePlain(node: Node)
    | FilePlain(bytes: seq<bv8>)
    | OpsPlain(ops: map<OpId, PathOperation>)

  datatype Hash = HashOf(blob: Blob)

  datatype Codec = RawCodec | CborCodec

  datatype Link = Link(codec: Codec, hash: Hash)

  /** A directory: a map from names to the links of its children. */
  datatype Node = Node(links: map<string, NodeLink>)

  datatype NodeLink =
    | Data(link: Link, secret: Secret)
    | Dir(link: Link, secret: Secret)

  datatype Role = Owner | Mirror

  /** A content key wrapped for one recipient. */
  datatype SecretShare = Wrapped(secret: Secret, recipient: PublicKey)

  datatype Share = Share(role: Role, identity: PublicKey, share: Option<SecretShare>)

  datatype Signature = Signature(signer: PublicKey, over: Manifest)

  datatype Manifest = Manifest(
    id: Uuid,
    name: string,
    height: nat,
    shares: map<PublicKey, Share>,
    entry: Link,
    pins: Link,
    previous: Option<Link>,
    opsLog: Option<Link>,
    public: Option<Secret>,
    author: Option<PublicKey>,
    signature: Option<Signature>)

  datatype OpId = OpId(timestamp: nat, peer: PublicKey)

  datatype OpType = Add | Remove | Mkdir | Mv(from: Path)

  datatype PathOperation = PathOperation(
    id: OpId,
    opType: OpType,
    path: Path,
    contentLink: Option<Link>,
    isDir: bool)

  const EMPTY_NODE := Node(map[])
}
