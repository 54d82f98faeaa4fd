/**
 * The values the parse pipeline passes around: parsed XML, the stage outputs, the
 * finished document, the errors, the delegate notifications, and the collaborators the
 * parser calls (file system, archive service, content service, stage parsers).
 */
module Epub {
  import opened Wrappers
  import Manifests

  /** A parsed XML element (an `AEXMLElement`), as the content service hands it to the stage parsers. */
  datatype XmlElement = XmlElement(
    name: string,
    attributes: map<string, string>,
    value: Option<string>,
    children: seq<XmlElement>)

  datatype SpineItem = SpineItem(id: Option<string>, idref: string, linear: bool)

  /** The reading order, with the optional legacy `toc` attribute naming the NCX manifest item. */
  datatype Spine = Spine(id: Option<string>, toc: Option<string>, items: seq<SpineItem>)

  datatype Metadata = Metadata(
    title: Option<string>,
    creator: Option<string>,
    language: Option<string>,
    publisher: Option<string>,
    identifier: Option<string>,
    date: Option<string>,
    rights: Option<string>,
    description: Option<string>)

  /** A navigation point and the points nested under it. */
  datatype TableOfContents = TableOfContents(title: string, item: Option<string>, subTable: seq<TableOfContents>)

  /** `EPUBDocument`, built once at the end of a successful parse. */
  datatype Document = Document(
    directory: string,
    contentDirectory: string,
    metadata: Metadata,
    manifest: Manifests.Manifest,
    spine: Spine,
    tableOfContents: TableOfContents)

  /** The errors a parse can end with: `EPUBParserError.tableOfContentsMissing`, and what the collaborators throw. */
  datatype ParseError =
    | ArchiveError(detail: string)
    | ContentLocationError(detail: string)
    | MalformedXml(detail: string)
    | TableOfContentsMissing

  /** The `EPUBParserDelegate` callbacks, in the order the pipeline makes them. */
  datatype Event =
    | DidBeginParsing(path: string)
    | DidUnzipArchive(directory: string)
    | DidLocateContent(contentDirectory: string)
    | DidFinishParsingSpine(spine: Spine)
    | DidFinishParsingMetadata(metadata: Metadata)
    | DidFinishParsingManifest(manifest: Manifests.Manifest)
    | DidFinishParsingTableOfContents(tableOfContents: TableOfContents)
    | DidFinishParsingDocument(path: string)
    | DidFailParsingDocument(path: string, error: ParseError)

  /** The position of each notification in a successful parse; a failure notification comes last. */
  function Stage(e: Event): nat {
    match e
    case DidBeginParsing(_) => 0
    case DidUnzipArchive(_) => 1
    case DidLocateContent(_) => 2
    case DidFinishParsingSpine(_) => 3
    case DidFinishParsingMetadata(_) => 4
    case DidFinishParsingManifest(_) => 5
    case DidFinishParsingTableOfContents(_) => 6
    case DidFinishParsingDocument(_) => 7
    case DidFailParsingDocument(_, _) => 8
  }

  /** What `EPUBContentServiceImplementation` exposes once it has located the package. */
  datatype ContentService = ContentService(
    contentDirectory: string,
    spine: XmlElement,
    metadata: XmlElement,
    manifest: XmlElement)

  /** What the parser asks `FileManager` and `URL`: is a path a directory, does a file exist, joining a path component. */
  datatype FileSystem = FileSystem(
    isDirectory: string -> bool,
    fileExists: string -> bool,
    appendingPathComponent: (string, string) -> string)

  /**
   * The collaborators of the parser, none of whose bodies is modelled: the file system,
   * the archive service, the content service (its initialiser and its
   * `tableOfContents(_:)` lookup) and the four stage parsers.
   */
  datatype Services = Services(
    fileSystem: FileSystem,
    unarchive: string -> Result<string, ParseError>,
    locateContent: string -> Result<ContentService, ParseError>,
    tableOfContentsResource: (ContentService, string) -> Result<XmlElement, ParseError>,
    parseSpine: XmlElement -> Spine,
    parseMetadata: XmlElement -> Metadata,
    parseManifest: XmlElement -> Manifests.Manifest,
    parseTableOfContents: XmlElement -> TableOfContents)
}
