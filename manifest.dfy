/**
 * The manifest of an EPUB package (`EKManifest`, `EKManifestItem`): a dictionary from
 * item id to item, where an item is identified by its id alone.
 */
module Manifests {
  import opened Wrappers
  import MediaTypes

  /** A manifest entry. Swift declares the fields `var`, but nothing assigns them after `init`. */
  datatype ManifestItem = ManifestItem(
    id: string,
    path: string,
    mediaType: MediaTypes.MediaType,
    property: Option<string>)

  datatype Manifest = Manifest(id: Option<string>, children: map<string, ManifestItem>)

  /** `EKParserError.noPathForTableOfContents`. */
  datatype ManifestError = NoPathForTableOfContents

  /** `EKManifestItem.init`: the media-type string is resolved, the other arguments are stored as given. */
  function NewManifestItem(id: string, path: string, mediaType: string, property: Option<string>): (r: ManifestItem)
    ensures r.id == id && r.path == path && r.property == property
    ensures (exists t: MediaTypes.MediaType :: MediaTypes.RawValue(t) == mediaType) ==>
              MediaTypes.RawValue(r.mediaType) == mediaType
    ensures (forall t: MediaTypes.MediaType :: MediaTypes.RawValue(t) != mediaType) ==>
              r.mediaType == MediaTypes.Unknown
  {
    ManifestItem(id, path, MediaTypes.Resolve(mediaType), property)
  }

  /** The convenience initialiser `EKManifest(children:)`. */
  function FromChildren(children: map<string, ManifestItem>): (m: Manifest)
    ensures m.id.None? && m.children == children
    ensures forall k :: k in children ==> GetTocPath(m, k) == Success(children[k].path)
  {
    Manifest(None, children)
  }

  /** `getTOCPath(id:)`: the path of the item stored under `id`, or the error when there is none. */
  function GetTocPath(m: Manifest, id: string): (r: Result<string, ManifestError>)
    ensures r.Success? <==> id in m.children
    ensures r.Success? ==> r.value == m.children[id].path
    ensures r.Failure? ==> r.error == NoPathForTableOfContents
  {
    if id in m.children then Success(m.children[id].path) else Failure(NoPathForTableOfContents)
  }

  /** A path returned by `getTOCPath` belongs to some item of the manifest. */
  lemma GetTocPathIsItemPath(m: Manifest, id: string)
    requires GetTocPath(m, id).Success?
    ensures exists k :: k in m.children && m.children[k].path == GetTocPath(m, id).value
  {
    assert id in m.children;
  }

  /** Every key of the dictionary is the id of the item stored under it. */
  predicate KeyedById(children: map<string, ManifestItem>) {
    forall k :: k in children ==> children[k].id == k
  }

  /** The `==` operator of `EKManifestItem`. */
  predicate SameItem(a: ManifestItem, b: ManifestItem) {
    a.id == b.id
  }

  /** `hashValue`: the hash of the id, for whatever string hash the runtime uses. */
  function HashValue(item: ManifestItem, stringHash: string -> int): int {
    stringHash(item.id)
  }

  /** Changing the path, media type or property of an item gives an item equal to it. */
  lemma SameItemIgnoresOtherFields(a: ManifestItem, path: string, mediaType: MediaTypes.MediaType, property: Option<string>)
    ensures SameItem(a, a.(path := path, mediaType := mediaType, property := property))
  {
  }

  /** Item equality is an equivalence relation. */
  lemma SameItemIsEquivalence(a: ManifestItem, b: ManifestItem, c: ManifestItem)
    ensures SameItem(a, a)
    ensures SameItem(a, b) ==> SameItem(b, a)
    ensures SameItem(a, b) && SameItem(b, c) ==> SameItem(a, c)
  {
  }

  /** Hashing agrees with equality: equal items hash alike, whatever the string hash. */
  lemma HashConsistentWithEquality(a: ManifestItem, b: ManifestItem, stringHash: string -> int)
    requires SameItem(a, b)
    ensures HashValue(a, stringHash) == HashValue(b, stringHash)
  {
  }
}
