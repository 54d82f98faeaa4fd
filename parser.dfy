/**
 * `EPUBParser.parse(documentAt:)`: the stages run in a fixed sequence, each reporting
 * to the delegate; the first error thrown is reported once and rethrown, and a document
 * is built only when every stage succeeds.
 */
module Parser {
  import opened Wrappers
  import opened Manifests
  import opened Epub
  import opened TocResolution

  /** `fileExist(fileName:contentService:)`: whether the file exists under the content directory. */
  function FileExist(fs: FileSystem, fileName: Option<string>, contentDirectory: string): (r: bool)
    ensures r ==> fileName.Some?
    ensures r ==> fs.fileExists(fs.appendingPathComponent(contentDirectory, fileName.value))
  {
    match fileName
    case None => false
    case Some(name) => fs.fileExists(fs.appendingPathComponent(contentDirectory, name))
  }

  /** The existence test the candidate probe uses, for one content directory. */
  function ExistsIn(fs: FileSystem, contentDirectory: string): string -> bool {
    name => FileExist(fs, Some(name), contentDirectory)
  }

  /** What the stages before the table of contents produced. */
  datatype Package = Package(
    directory: string,
    content: ContentService,
    spine: Spine,
    metadata: Metadata,
    manifest: Manifest)

  /** The state after the manifest stage: halted by an error, or ready to resolve the table of contents. */
  datatype Progress =
    | Halted(events: seq<Event>, error: ParseError)
    | Reached(events: seq<Event>, package: Package)

  /** The package of a `Reached` state, or the error of a `Halted` one. */
  function PackageOf(progress: Progress): Result<Package, ParseError> {
    match progress
    case Halted(_, e) => Failure(e)
    case Reached(_, pkg) => Success(pkg)
  }

  /** The directory to parse: the path itself when it is a directory, otherwise where the archive service unpacks it. */
  function Directory(path: string, env: Services): Result<string, ParseError> {
    if env.fileSystem.isDirectory(path) then Success(path) else env.unarchive(path)
  }

  /** The spine, metadata and manifest stages, run on what the content service located in `directory`. */
  function ReadPackage(directory: string, content: ContentService, env: Services): Package {
    Package(directory, content, env.parseSpine(content.spine), env.parseMetadata(content.metadata),
            env.parseManifest(content.manifest))
  }

  /** The notifications up to the manifest stage, for a package that was read. */
  function PackageTrace(path: string, pkg: Package): seq<Event> {
    [DidBeginParsing(path), DidUnzipArchive(pkg.directory), DidLocateContent(pkg.content.contentDirectory),
     DidFinishParsingSpine(pkg.spine), DidFinishParsingMetadata(pkg.metadata), DidFinishParsingManifest(pkg.manifest)]
  }

  /** The stages up to the manifest: begin, unzip (skipped for a directory), locate content, spine, metadata, manifest. */
  function LocatePackage(path: string, env: Services): Progress {
    match Directory(path, env)
    case Failure(e) => Halted([DidBeginParsing(path)], e)
    case Success(directory) =>
      match env.locateContent(directory)
      case Failure(e) => Halted([DidBeginParsing(path), DidUnzipArchive(directory)], e)
      case Success(content) =>
        var pkg := ReadPackage(directory, content, env);
        Reached(PackageTrace(path, pkg), pkg)
  }

  /** The table of contents once resolved to `resolved`: the file is loaded through the content service and parsed. */
  function TableOfContentsFor(env: Services, pkg: Package, resolved: Result<string, ParseError>): Result<TableOfContents, ParseError> {
    match resolved
    case Failure(e) => Failure(e)
    case Success(fileName) =>
      match env.tableOfContentsResource(pkg.content, fileName)
      case Failure(e) => Failure(e)
      case Success(element) => Success(env.parseTableOfContents(element))
  }

  /** The stages after the manifest, for the resolution `resolved`: the table of contents, then the document. */
  function Assemble(env: Services, pkg: Package, resolved: Result<string, ParseError>): Result<Document, ParseError> {
    match TableOfContentsFor(env, pkg, resolved)
    case Failure(e) => Failure(e)
    case Success(toc) =>
      Success(Document(pkg.directory, pkg.content.contentDirectory, pkg.metadata, pkg.manifest, pkg.spine, toc))
  }

  /** The last notifications: the table of contents and the finish on success, the failure otherwise. */
  function Closing(path: string, result: Result<Document, ParseError>): seq<Event> {
    match result
    case Success(doc) => [DidFinishParsingTableOfContents(doc.tableOfContents), DidFinishParsingDocument(path)]
    case Failure(e) => [DidFailParsingDocument(path, e)]
  }

  /** The results the stages after the manifest can give, for each admissible resolution of the table of contents. */
  ghost predicate AssemblesTo(env: Services, pkg: Package, result: Result<Document, ParseError>) {
    exists r: Result<string, ParseError> ::
      && IsTocResolution(pkg.spine.toc, pkg.manifest.children, ExistsIn(env.fileSystem, pkg.content.contentDirectory), r)
      && result == Assemble(env, pkg, r)
  }

  /** The admissible runs of `parse(documentAt: path)`: its result and the notifications it makes. */
  ghost predicate ParseRun(path: string, env: Services, result: Result<Document, ParseError>, events: seq<Event>) {
    && events == LocatePackage(path, env).events + Closing(path, result)
    && match LocatePackage(path, env)
       case Halted(_, e) => result == Failure(e)
       case Reached(_, pkg) => AssemblesTo(env, pkg, result)
  }

  /** The notifications of a successful parse of `path` into `doc`, in order. */
  function SuccessTrace(path: string, doc: Document): seq<Event> {
    [DidBeginParsing(path), DidUnzipArchive(doc.directory), DidLocateContent(doc.contentDirectory),
     DidFinishParsingSpine(doc.spine), DidFinishParsingMetadata(doc.metadata),
     DidFinishParsingManifest(doc.manifest), DidFinishParsingTableOfContents(doc.tableOfContents),
     DidFinishParsingDocument(path)]
  }

  /** A successful parse makes exactly the eight notifications, in stage order. */
  lemma SuccessfulRunTrace(path: string, env: Services, doc: Document, events: seq<Event>)
    requires ParseRun(path, env, Success(doc), events)
    ensures events == SuccessTrace(path, doc)
    ensures forall i :: 0 <= i < |events| ==> Stage(events[i]) == i
  {
    var pkg := LocatePackage(path, env).package;
    var r :| IsTocResolution(pkg.spine.toc, pkg.manifest.children, ExistsIn(env.fileSystem, pkg.content.contentDirectory), r)
             && Success(doc) == Assemble(env, pkg, r);
    assert doc.directory == pkg.directory && doc.spine == pkg.spine && doc.manifest == pkg.manifest;
  }

  /** The document of a successful parse holds exactly what the collaborators produced, stage by stage. */
  lemma SuccessfulRunDocument(path: string, env: Services, doc: Document, events: seq<Event>)
    requires ParseRun(path, env, Success(doc), events)
    ensures Directory(path, env) == Success(doc.directory)
    ensures env.locateContent(doc.directory).Success?
    ensures var content := env.locateContent(doc.directory).value;
            && doc.contentDirectory == content.contentDirectory
            && doc.spine == env.parseSpine(content.spine)
            && doc.metadata == env.parseMetadata(content.metadata)
            && doc.manifest == env.parseManifest(content.manifest)
            && exists fileName ::
                 && IsTocResolution(doc.spine.toc, doc.manifest.children, ExistsIn(env.fileSystem, content.contentDirectory), Success(fileName))
                 && env.tableOfContentsResource(content, fileName).Success?
                 && doc.tableOfContents == env.parseTableOfContents(env.tableOfContentsResource(content, fileName).value)
  {
    var pkg := LocatePackage(path, env).package;
    var fe := ExistsIn(env.fileSystem, pkg.content.contentDirectory);
    var r :| IsTocResolution(pkg.spine.toc, pkg.manifest.children, fe, r) && Success(doc) == Assemble(env, pkg, r);
    var fileName := r.value;
    assert env.tableOfContentsResource(pkg.content, fileName).Success?;
    assert pkg.content == env.locateContent(doc.directory).value;
    assert IsTocResolution(doc.spine.toc, doc.manifest.children, fe, Success(fileName));
  }

  /**
   * A failed parse reports the stages completed so far in order, then the error exactly once,
   * and never finishes: it stops after begin, after unzip, or after the manifest.
   */
  lemma FailedRun(path: string, env: Services, e: ParseError, events: seq<Event>)
    requires ParseRun(path, env, Failure(e), events)
    ensures |events| in {2, 3, 7}
    ensures events[|events| - 1] == DidFailParsingDocument(path, e)
    ensures forall i :: 0 <= i < |events| - 1 ==> Stage(events[i]) == i
    ensures events[0] == DidBeginParsing(path)
  {
  }

  /** A directory is parsed in place: the archive service is never consulted and the directory is the path. */
  lemma DirectorySkipsUnzip(path: string, env: Services, unarchive: string -> Result<string, ParseError>,
                            result: Result<Document, ParseError>, events: seq<Event>)
    requires env.fileSystem.isDirectory(path)
    requires ParseRun(path, env, result, events)
    ensures ParseRun(path, env.(unarchive := unarchive), result, events)
    ensures |events| >= 3 && events[1] == DidUnzipArchive(path)
    ensures result.Success? ==> result.value.directory == path
  {
    var env' := env.(unarchive := unarchive);
    assert Directory(path, env') == Directory(path, env) == Success(path);
    assert LocatePackage(path, env') == LocatePackage(path, env);
    match LocatePackage(path, env)
    case Halted(_, _) =>
    case Reached(_, pkg) =>
      var fe := ExistsIn(env.fileSystem, pkg.content.contentDirectory);
      var r :| IsTocResolution(pkg.spine.toc, pkg.manifest.children, fe, r) && result == Assemble(env, pkg, r);
      assert Assemble(env', pkg, r) == Assemble(env, pkg, r);
      assert AssemblesTo(env', pkg, result);
  }

  /** When neither a candidate nor the fallback resolves, the parse fails with `tableOfContentsMissing` after the manifest stage. */
  lemma MissingTableOfContents(path: string, env: Services, result: Result<Document, ParseError>, events: seq<Event>)
    requires LocatePackage(path, env).Reached?
    requires var pkg := LocatePackage(path, env).package;
             && CandidateMatch(pkg.spine.toc, pkg.manifest.children, ExistsIn(env.fileSystem, pkg.content.contentDirectory)).None?
             && forall k :: !IsFallbackKey(pkg.manifest.children, k)
    ensures ParseRun(path, env, result, events) <==>
            && result == Failure(TableOfContentsMissing)
            && events == LocatePackage(path, env).events + [DidFailParsingDocument(path, TableOfContentsMissing)]
  {
    var pkg := LocatePackage(path, env).package;
    var fe := ExistsIn(env.fileSystem, pkg.content.contentDirectory);
    if AssemblesTo(env, pkg, result) {
      var r :| IsTocResolution(pkg.spine.toc, pkg.manifest.children, fe, r) && result == Assemble(env, pkg, r);
      assert r == Failure(TableOfContentsMissing);
    }
    if result == Failure(TableOfContentsMissing) {
      var r: Result<string, ParseError> := Failure(TableOfContentsMissing);
      assert IsTocResolution(pkg.spine.toc, pkg.manifest.children, fe, r);
      assert AssemblesTo(env, pkg, result);
    }
  }

  /** If the manifest parser keys every item by its id, parsing the same input twice gives the same result and notifications. */
  lemma KeyedParseIsDeterministic(path: string, env: Services,
                                  result1: Result<Document, ParseError>, events1: seq<Event>,
                                  result2: Result<Document, ParseError>, events2: seq<Event>)
    requires forall x :: KeyedById(env.parseManifest(x).children)
    requires ParseRun(path, env, result1, events1) && ParseRun(path, env, result2, events2)
    ensures result1 == result2 && events1 == events2
  {
    match LocatePackage(path, env)
    case Halted(_, _) =>
    case Reached(_, pkg) =>
      var fe := ExistsIn(env.fileSystem, pkg.content.contentDirectory);
      var r1 :| IsTocResolution(pkg.spine.toc, pkg.manifest.children, fe, r1) && result1 == Assemble(env, pkg, r1);
      var r2 :| IsTocResolution(pkg.spine.toc, pkg.manifest.children, fe, r2) && result2 == Assemble(env, pkg, r2);
      KeyedResolutionIsDeterministic(pkg.spine.toc, pkg.manifest.children, fe, r1, r2);
  }

  /** The delegate: it records, in order, every notification it receives. */
  class Observer {
    var received: seq<Event>

    constructor ()
      ensures received == []
    {
      received := [];
    }

    method Receive(e: Event)
      modifies this
      ensures received == old(received) + [e]
    {
      received := received + [e];
    }
  }

  class EPUBParser {
    const env: Services
    var delegate: Observer?

    constructor (env: Services, delegate: Observer?)
      ensures this.env == env && this.delegate == delegate
    {
      this.env := env;
      this.delegate := delegate;
    }

    /** `delegate?.parser(...)`: a notification reaches the delegate when there is one. */
    method Notify(e: Event, ghost trace: seq<Event>) returns (ghost trace': seq<Event>)
      modifies delegate
      ensures trace' == trace + [e]
      ensures delegate != null ==> delegate.received == old(delegate.received) + [e]
    {
      if delegate != null {
        delegate.Receive(e);
      }
      trace' := trace + [e];
    }

    /**
     * The stages of `parse(documentAt:)` up to the manifest, each reported to the delegate;
     * an error stops them before it is reported.
     */
    method LocateAndParsePackage(path: string) returns (package: Result<Package, ParseError>, ghost emitted: seq<Event>)
      modifies delegate
      ensures package == PackageOf(LocatePackage(path, env)) && emitted == LocatePackage(path, env).events
      ensures delegate != null ==> delegate.received == old(delegate.received) + emitted
    {
      emitted := Notify(DidBeginParsing(path), []);

      var directory: string;
      if env.fileSystem.isDirectory(path) {
        directory := path;
      } else {
        var unzipped := env.unarchive(path);
        if unzipped.Failure? {
          return Failure(unzipped.error), emitted;
        }
        directory := unzipped.value;
      }
      emitted := Notify(DidUnzipArchive(directory), emitted);

      var located := env.locateContent(directory);
      if located.Failure? {
        return Failure(located.error), emitted;
      }
      var contentService := located.value;
      emitted := Notify(DidLocateContent(contentService.contentDirectory), emitted);

      var pkg, stages := ParsePackageDocuments(directory, contentService);
      emitted := emitted + stages;
      package := Success(pkg);
    }

    /** The spine, metadata and manifest stages, in that order, each reported when done. */
    method ParsePackageDocuments(directory: string, contentService: ContentService)
      returns (pkg: Package, ghost emitted: seq<Event>)
      modifies delegate
      ensures pkg == ReadPackage(directory, contentService, env)
      ensures emitted == [DidFinishParsingSpine(pkg.spine), DidFinishParsingMetadata(pkg.metadata),
                          DidFinishParsingManifest(pkg.manifest)]
      ensures delegate != null ==> delegate.received == old(delegate.received) + emitted
    {
      var spine := env.parseSpine(contentService.spine);
      emitted := Notify(DidFinishParsingSpine(spine), []);
      var metadata := env.parseMetadata(contentService.metadata);
      emitted := Notify(DidFinishParsingMetadata(metadata), emitted);
      var manifest := env.parseManifest(contentService.manifest);
      emitted := Notify(DidFinishParsingManifest(manifest), emitted);
      pkg := Package(directory, contentService, spine, metadata, manifest);
    }

    /**
     * The table-of-contents stage: resolve the file, load and parse it, report it.
     * `resolved` is the resolution the candidate search made.
     */
    method ParseTableOfContentsStage(pkg: Package)
      returns (toc: Result<TableOfContents, ParseError>, ghost resolved: Result<string, ParseError>, ghost emitted: seq<Event>)
      modifies delegate
      ensures IsTocResolution(pkg.spine.toc, pkg.manifest.children, ExistsIn(env.fileSystem, pkg.content.contentDirectory), resolved)
      ensures toc == TableOfContentsFor(env, pkg, resolved)
      ensures emitted == if toc.Success? then [DidFinishParsingTableOfContents(toc.value)] else []
      ensures delegate != null ==> delegate.received == old(delegate.received) + emitted
    {
      var found := ResolveTableOfContents(pkg.spine.toc, pkg.manifest.children,
                                          ExistsIn(env.fileSystem, pkg.content.contentDirectory));
      resolved := found;
      emitted := [];
      if found.Failure? {
        return Failure(found.error), resolved, emitted;
      }
      var tableOfContentsElement := env.tableOfContentsResource(pkg.content, found.value);
      if tableOfContentsElement.Failure? {
        return Failure(tableOfContentsElement.error), resolved, emitted;
      }
      var tableOfContents := env.parseTableOfContents(tableOfContentsElement.value);
      emitted := Notify(DidFinishParsingTableOfContents(tableOfContents), emitted);
      toc := Success(tableOfContents);
    }

    /**
     * `parse(documentAt:)`. `emitted` is the sequence of notifications made, which a
     * delegate, when present, receives after what it had already received.
     */
    method Parse(path: string) returns (result: Result<Document, ParseError>, ghost emitted: seq<Event>)
      modifies delegate
      ensures ParseRun(path, env, result, emitted)
      ensures delegate != null ==> delegate.received == old(delegate.received) + emitted
    {
      var package;
      package, emitted := LocateAndParsePackage(path);
      if package.Failure? {
        result := Failure(package.error);
        emitted := Notify(DidFailParsingDocument(path, package.error), emitted);
        return;
      }
      var pkg := package.value;
      ghost var progress := LocatePackage(path, env);
      assert progress == Reached(emitted, pkg);

      var toc, resolved, stage := ParseTableOfContentsStage(pkg);
      emitted := emitted + stage;
      if toc.Failure? {
        result := Failure(toc.error);
        emitted := Notify(DidFailParsingDocument(path, toc.error), emitted);
        assert result == Assemble(env, pkg, resolved);
        assert AssemblesTo(env, pkg, result);
        return;
      }

      emitted := Notify(DidFinishParsingDocument(path), emitted);
      result := Success(Document(pkg.directory, pkg.content.contentDirectory, pkg.metadata, pkg.manifest,
                                 pkg.spine, toc.value));
      assert result == Assemble(env, pkg, resolved);
      assert AssemblesTo(env, pkg, result);
      assert emitted == progress.events + Closing(path, result);
    }
  }
}
