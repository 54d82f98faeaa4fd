# EPUBKit parse pipeline, modelled in Dafny

This project models the core of EPUBKit, a Swift library that parses an EPUB book into
an `EPUBDocument`. The document holds the content directory, the metadata, the manifest,
the spine and the table of contents. The model covers three things:

- **The manifest data model** (`EKManifest`, `EKManifestItem`, `EKMediaTypes`), in
  `media_types.dfy` and `manifest.dfy`. A media-type string resolves to one enumeration
  case, or to `Unknown`. Two items are equal exactly when their ids are equal. Hashing
  agrees with that equality. `getTOCPath` either returns a path or throws.
- **Table-of-contents resolution**, in `toc_resolution.dfy`. The parser probes three
  manifest ids in order: the spine's `toc` (or `"toc.ncx"` when the spine has none),
  then `"_nav.xhtml"`, then `"_toc.xhtml"`. It accepts the first whose entry exists and
  whose file exists. If none is accepted, it falls back to an entry whose key or item id
  is `"toc"`, and this fallback does not check that the file exists. If that also fails,
  parsing throws `tableOfContentsMissing`. `ResolveTableOfContents` mirrors the Swift
  code: it builds the candidate array by appending, runs a loop with `break`, and then
  filters the dictionary. It is proved against the relation `IsTocResolution`.
- **The parse pipeline**, in `parser.dfy`. `EPUBParser.Parse` runs the stages in order
  and notifies the delegate after each one: begin, unzip, content located, spine,
  metadata, manifest, table of contents, finish. The first error thrown is reported once
  as a failure notification and then returned. No document is built in that case.
  `ParseRun` states which results and notification sequences are admissible. The lemmas
  derive the order of the trace, the all-or-nothing result and the directory shortcut
  from it.

`epub.dfy` holds the values the pipeline passes around. It also holds `Services`, a
record of functions that stands for every collaborator whose code is not modelled:
`FileManager`, URL path joining, the archive service, the content service and the four
stage parsers. The delegate is an `Observer` object that records the notifications it
receives. `Parse` also returns the trace it emitted as a ghost value, so the trace is
specified even when no delegate is attached.

Swift's `Dictionary.filter(...).first` has no defined iteration order. So the fallback
is modelled as a choice among all entries that pass the filter (`:|` in the method,
an existential in `IsTocResolution`). `FallbackOrderUnspecified` exhibits a manifest for
which two different outcomes are both admissible. When every key equals its item's id,
the outcome is unique (`KeyedResolutionIsDeterministic`, `KeyedParseIsDeterministic`).
In that case the fallback is exactly `getTOCPath(id: "toc")` (`KeyedFallbackIsGetTocPath`).

Further points about the code that the model follows:

- `didUnzipArchiveTo` is sent for a directory input too, with the directory equal to the
  input path (EPUBParser.swift:44-45).
- `EKMediaTypes.unknown` has no explicit raw value, so Swift gives it the raw value
  `"unknown"`. The string `"unknown"` therefore resolves to `Unknown` through the
  initialiser itself, and the raw-value round trip holds for all 16 cases.
- The parser works on `EPUBManifest.items`, a type that is not among the modelled files.
  It is represented by the same `Manifest` datatype as `EKManifest`, whose dictionary
  field is `children`.

## Model

| member | source | states |
|---|---|---|
| `MediaTypes.RawValue` | EPUBKit/EPUBKitCore/EKManifest.swift:57-76 | every case except `Unknown` has one of the 15 listed MIME types as raw value, and `Unknown`'s raw value is none of them |
| `MediaTypes.FromRawValue` | EPUBKit/EPUBKitCore/EKManifest.swift:57-76 | a string yields a case exactly when it is that case's raw value, and then the case has that raw value |
| `MediaTypes.Resolve` | EPUBKit/EPUBKitCore/EKManifest.swift:45 | resolution is total: a raw value resolves to the case with that raw value, any other string to `Unknown` |
| `MediaTypes.RawValueRoundTrip` | EPUBKit/EPUBKitCore/EKManifest.swift:57-76 | resolving any case's raw value gives back that case |
| `MediaTypes.RawValueInjective` | EPUBKit/EPUBKitCore/EKManifest.swift:57-76 | two cases with the same raw value are the same case |
| `MediaTypes.KnownMimeTypesResolve` | EPUBKit/EPUBKitCore/EKManifest.swift:59-73 | each of the 15 listed MIME strings resolves to a case other than `Unknown` whose raw value is that string |
| `MediaTypes.ResolveUnrecognised` | EPUBKit/EPUBKitCore/EKManifest.swift:45 | a string that is neither listed nor `"unknown"` resolves to `Unknown`; a known case comes only from a listed string |
| `Manifests.NewManifestItem` | EPUBKit/EPUBKitCore/EKManifest.swift:42-47 | id, path and property are stored unchanged; the media type is the case named by the string, or `Unknown` when no case has it as raw value |
| `Manifests.FromChildren` | EPUBKit/EPUBKitCore/EKManifest.swift:16-23 | the convenience initialiser leaves the id absent and keeps the dictionary, so every key's path is found by `getTOCPath` |
| `Manifests.GetTocPath` | EPUBKit/EPUBKitCore/EKManifest.swift:25-31 | succeeds exactly when the id is a key, with that item's path; otherwise throws `noPathForTableOfContents` |
| `Manifests.GetTocPathIsItemPath` | EPUBKit/EPUBKitCore/EKManifest.swift:25-31 | a path returned by `getTOCPath` is the path of some item of the manifest |
| `Manifests.SameItem` | EPUBKit/EPUBKitCore/EKManifest.swift:49-51 | the item `==` operator, defined as equality of ids; its properties are the lemmas below |
| `Manifests.HashValue` | EPUBKit/EPUBKitCore/EKManifest.swift:53 | `hashValue`, defined as the runtime string hash of the id; `HashConsistentWithEquality` relates it to `==` |
| `Manifests.SameItemIgnoresOtherFields` | EPUBKit/EPUBKitCore/EKManifest.swift:49-51 | items that differ only in path, media type or property are equal |
| `Manifests.SameItemIsEquivalence` | EPUBKit/EPUBKitCore/EKManifest.swift:49-51 | item equality is reflexive, symmetric and transitive |
| `Manifests.HashConsistentWithEquality` | EPUBKit/EPUBKitCore/EKManifest.swift:53 | equal items have equal hash values, for any string hash |
| `TocResolution.Candidates` | Sources/EPUBKit/Parser/EPUBParser.swift:60-70 | exactly three ids are probed: the spine's `toc` when it has one and `"toc.ncx"` otherwise, then `"_nav.xhtml"`, then `"_toc.xhtml"` |
| `TocResolution.FirstAccepted` | Sources/EPUBKit/Parser/EPUBParser.swift:72-79 | the probe stops at the first candidate whose entry exists and whose file exists; every earlier candidate was rejected |
| `TocResolution.CandidateMatch` | Sources/EPUBKit/Parser/EPUBParser.swift:66-79 | the probe finds a path exactly when one of the three candidates is accepted |
| `TocResolution.ResolveTableOfContents` | Sources/EPUBKit/Parser/EPUBParser.swift:60-87 | the candidate array, the loop with `break`, the filtered fallback and the error together give an admissible resolution |
| `TocResolution.SpineTocIsFirstCandidate` | Sources/EPUBKit/Parser/EPUBParser.swift:60-70 | the first candidate is the spine's `toc`, or `"toc.ncx"` without one; with a spine `toc`, `"toc.ncx"` is a candidate only if it is that `toc` |
| `TocResolution.FirstAcceptedAgrees` | Sources/EPUBKit/Parser/EPUBParser.swift:72-79 | the probe depends only on which candidates are accepted |
| `TocResolution.NcxNotProbedWithSpineToc` | Sources/EPUBKit/Parser/EPUBParser.swift:60-70 | with a spine `toc` other than `"toc.ncx"`, removing the `"toc.ncx"` entry does not change the probe |
| `TocResolution.MissingFileSkipped` | Sources/EPUBKit/Parser/EPUBParser.swift:74-75 | an entry whose file is missing is skipped: the probe behaves as if the entry were absent |
| `TocResolution.EarliestAcceptedCandidateWins` | Sources/EPUBKit/Parser/EPUBParser.swift:66-79 | the earliest accepted candidate is the only admissible outcome, whatever later candidates and the fallback offer |
| `TocResolution.SpineTocTakesPriority` | Sources/EPUBKit/Parser/EPUBParser.swift:60-79 | an accepted spine `toc` decides the result, even when `"toc.ncx"` also exists |
| `TocResolution.FallbackSkipsExistenceCheck` | Sources/EPUBKit/Parser/EPUBParser.swift:81-83 | with no accepted candidate, any entry whose key or item id is `"toc"` may supply the path, whether or not its file exists |
| `TocResolution.FallbackResultIsTocEntry` | Sources/EPUBKit/Parser/EPUBParser.swift:81-83 | a fallback result is the path of an entry whose key or id is `"toc"` |
| `TocResolution.ResolutionFailsOnlyWhenNothingMatches` | Sources/EPUBKit/Parser/EPUBParser.swift:81-87 | resolution fails exactly when no candidate is accepted and no entry passes the filter, and the error is then `tableOfContentsMissing` |
| `TocResolution.ResolvedPathIsItemPath` | Sources/EPUBKit/Parser/EPUBParser.swift:74-82 | every resolved path is the `path` of some manifest item |
| `TocResolution.KeyedResolutionIsDeterministic` | Sources/EPUBKit/Parser/EPUBParser.swift:81-83 | when every key equals its item's id, exactly one outcome is admissible |
| `TocResolution.KeyedFallbackIsGetTocPath` | Sources/EPUBKit/Parser/EPUBParser.swift:81-83 | when every key equals its item's id, the fallback succeeds exactly when `getTOCPath(id: "toc")` does, with the same path |
| `TocResolution.FallbackOrderUnspecified` | Sources/EPUBKit/Parser/EPUBParser.swift:81 | a manifest with one entry keyed `"toc"` and another with id `"toc"` admits both paths |
| `Parser.FileExist` | Sources/EPUBKit/Parser/EPUBParser.swift:104-112 | a missing file name never exists; a true answer means the joined content-directory path exists |
| `Parser.SuccessfulRunTrace` | Sources/EPUBKit/Parser/EPUBParser.swift:39-100 | a successful parse makes exactly the eight notifications, each at its stage's position |
| `Parser.SuccessfulRunDocument` | Sources/EPUBKit/Parser/EPUBParser.swift:44-100 | the document holds exactly the stage outputs: the directory, the content directory, the parsed spine, metadata and manifest, and the parsed table of contents of an admissible resolution |
| `Parser.FailedRun` | Sources/EPUBKit/Parser/EPUBParser.swift:93-96 | a failed parse reports the completed stages in order, then the error once, and never finishes; it stops after begin, after unzip or after the manifest |
| `Parser.DirectorySkipsUnzip` | Sources/EPUBKit/Parser/EPUBParser.swift:41-45 | for a directory the archive service plays no part, the unzip notification carries the path, and the document's directory is the path |
| `Parser.MissingTableOfContents` | Sources/EPUBKit/Parser/EPUBParser.swift:81-96 | when nothing resolves, the only run fails with `tableOfContentsMissing` right after the manifest notification |
| `Parser.KeyedParseIsDeterministic` | Sources/EPUBKit/Parser/EPUBParser.swift:32-101 | with a manifest parser that keys items by id, two parses of the same input give the same result and the same notifications |
| `Parser.EPUBParser.constructor` | Sources/EPUBKit/Parser/EPUBParser.swift:24-30 | stores the collaborators and the delegate; `init()` takes no delegate and starts it nil, so passing one equals constructing and then assigning `delegate` |
| `Parser.EPUBParser.Notify` | Sources/EPUBKit/Parser/EPUBParser.swift:39 | a notification reaches the delegate when one is attached, and is added to the emitted trace |
| `Parser.EPUBParser.LocateAndParsePackage` | Sources/EPUBKit/Parser/EPUBParser.swift:39-58 | begin, unzip or take the directory, locate the content, then the package stages; stops at the first error before reporting it |
| `Parser.EPUBParser.ParsePackageDocuments` | Sources/EPUBKit/Parser/EPUBParser.swift:51-58 | spine, metadata and manifest are parsed in that order and each is reported when done |
| `Parser.EPUBParser.ParseTableOfContentsStage` | Sources/EPUBKit/Parser/EPUBParser.swift:60-92 | the file is chosen by an admissible resolution, loaded and parsed, and reported only on success |
| `Parser.EPUBParser.Parse` | Sources/EPUBKit/Parser/EPUBParser.swift:32-101 | the result and the emitted trace form an admissible run, and the delegate receives that trace after what it already held |

## Left out

- XML parsing (AEXML) and the bodies of the stage parsers and of the content service are not modelled. These files are not part of this model, so they are uninterpreted functions in `Services`.
- Archive extraction is not modelled. `unarchive` is an abstract call that may fail with any error.
- `FileManager.fileExists` and URL path joining are abstract functions over path strings. A URL is modelled as its path string.
- The delegate is held `weak` in the source. Reference lifetime is not modelled: the delegate is an optional `Observer`, and the parser argument of each callback is dropped.
- The integer values of `hashValue` depend on the runtime's string hash, which is a parameter. Only consistency with equality is stated.
- The default collaborators that `init()` builds are not modelled. The constructor takes the collaborators as arguments, and also the delegate, which the source assigns after `init()`.
- `EPUBDataSource` and `EKViewDataSource` are one-method UI protocols with no logic, so they are not modelled.
- Thread safety of concurrent parses is not modelled, because one parse is sequential.
- `TocResolution.Accepted`, `TocResolution.CandidateMatch`, `Manifests.GetTocPath` and `Manifests.SameItem`: ids and dictionary keys are compared as code-point sequences. Swift compares `String` values and looks up `[String: _]` keys up to Unicode canonical equivalence, so a spine `toc` of "é" (U+00E9) finds a manifest key "e" + U+0301 in Swift but not in the model. The literal candidate ids and the raw values are ASCII, so they are unaffected. Unicode normalisation is not modelled.
- `Parser.FileExist`: the contract gives only the direction "true implies the file exists". The converse holds by the definition, which the candidate probe uses directly.
