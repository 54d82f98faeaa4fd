/**
 * Which manifest file is the table of contents: a first-match-wins probe of three
 * candidate ids, each accepted only if its file exists, then a last-resort scan for an
 * entry keyed or identified as "toc" that does not check the file, then an error.
 */
module TocResolution {
  import opened Wrappers
  import opened Manifests
  import opened Epub
  import MediaTypes

  const DefaultNcxId: string := "toc.ncx"
  const NavId: string := "_nav.xhtml"
  const TocId: string := "_toc.xhtml"
  const FallbackId: string := "toc"

  /** The ids probed, in order: the spine's `toc` (or "toc.ncx" without one), "_nav.xhtml", "_toc.xhtml". */
  function Candidates(spineToc: Option<string>): (c: seq<string>)
    ensures |c| == 3 && c[1] == NavId && c[2] == TocId
    ensures spineToc.Some? ==> c[0] == spineToc.value
    ensures spineToc.None? ==> c[0] == DefaultNcxId
  {
    [spineToc.GetOr(DefaultNcxId), NavId, TocId]
  }

  /** A candidate id is accepted when the manifest has an entry for it and that entry's file exists. */
  predicate Accepted(name: string, items: map<string, ManifestItem>, fileExists: string -> bool) {
    name in items && fileExists(items[name].path)
  }

  /** The position of the first accepted name, or `|names|` when none is accepted. */
  function FirstAccepted(names: seq<string>, items: map<string, ManifestItem>, fileExists: string -> bool): (i: nat)
    ensures i <= |names|
    ensures forall j :: 0 <= j < i ==> !Accepted(names[j], items, fileExists)
    ensures i < |names| ==> Accepted(names[i], items, fileExists)
  {
    if names == [] then 0
    else if Accepted(names[0], items, fileExists) then 0
    else 1 + FirstAccepted(names[1..], items, fileExists)
  }

  /** The predicate of the fallback `filter`: the key, or the item's id, is "toc". */
  predicate IsFallbackKey(items: map<string, ManifestItem>, k: string) {
    k in items && (k == FallbackId || items[k].id == FallbackId)
  }

  /** The path chosen by the candidate probe, if some candidate is accepted. */
  function CandidateMatch(spineToc: Option<string>, items: map<string, ManifestItem>,
                          fileExists: string -> bool): (p: Option<string>)
    ensures p.Some? <==> exists i :: 0 <= i < 3 && Accepted(Candidates(spineToc)[i], items, fileExists)
  {
    var names := Candidates(spineToc);
    var i := FirstAccepted(names, items, fileExists);
    if i < |names| then Some(items[names[i]].path) else None
  }

  /**
   * The admissible outcomes of the resolution. The fallback takes `.first` of a filtered
   * dictionary, whose order is unspecified, so any entry passing the filter is admissible.
   */
  ghost predicate IsTocResolution(spineToc: Option<string>, items: map<string, ManifestItem>,
                                fileExists: string -> bool, r: Result<string, ParseError>)
  {
    match CandidateMatch(spineToc, items, fileExists)
    case Some(p) => r == Success(p)
    case None =>
      if exists k :: IsFallbackKey(items, k) then
        exists k :: IsFallbackKey(items, k) && r == Success(items[k].path)
      else r == Failure(TableOfContentsMissing)
  }

  /** The candidate search of `parse(documentAt:)`, written as the source writes it. */
  method ResolveTableOfContents(spineToc: Option<string>, items: map<string, ManifestItem>,
                                fileExists: string -> bool) returns (r: Result<string, ParseError>)
    ensures IsTocResolution(spineToc, items, fileExists, r)
  {
    var toc := if spineToc.Some? then spineToc.value else DefaultNcxId;
    var resultName: Option<string> := None;
    var fileNames: seq<string> := [];
    fileNames := fileNames + [toc];
    fileNames := fileNames + [NavId];
    fileNames := fileNames + [TocId];
    assert fileNames == Candidates(spineToc);

    var i := 0;
    while i < |fileNames|
      invariant 0 <= i <= |fileNames|
      invariant resultName.None?
      invariant forall j :: 0 <= j < i ==> !Accepted(fileNames[j], items, fileExists)
    {
      var name := fileNames[i];
      if name in items && fileExists(items[name].path) {
        resultName := Some(items[name].path);
        assert FirstAccepted(fileNames, items, fileExists) == i;
        break;
      }
      i := i + 1;
    }
    assert resultName.None? ==> FirstAccepted(fileNames, items, fileExists) == |fileNames|;
    assert resultName == CandidateMatch(spineToc, items, fileExists);

    if resultName.None? {
      var filtered := map k | k in items && (k == FallbackId || items[k].id == FallbackId) :: items[k];
      if filtered != map[] {
        var k :| k in filtered;
        assert IsFallbackKey(items, k);
        resultName := Some(filtered[k].path);
      } else {
        assert forall k :: IsFallbackKey(items, k) ==> k in filtered;
      }
    }

    match resultName
    case None => r := Failure(TableOfContentsMissing);
    case Some(fileName) => r := Success(fileName);
  }

  /** The first candidate is the spine's `toc` when it has one; "toc.ncx" is then probed only if it is that `toc`. */
  lemma SpineTocIsFirstCandidate(spineToc: Option<string>)
    ensures Candidates(spineToc)[0] == if spineToc.Some? then spineToc.value else DefaultNcxId
    ensures spineToc.Some? ==> (DefaultNcxId in Candidates(spineToc) <==> spineToc.value == DefaultNcxId)
  {
  }

  /** The probe depends only on which names are accepted and on the paths of accepted names. */
  lemma {:induction false} FirstAcceptedAgrees(names: seq<string>, items: map<string, ManifestItem>,
                                               items': map<string, ManifestItem>, fileExists: string -> bool)
    requires forall j :: 0 <= j < |names| ==>
               Accepted(names[j], items, fileExists) == Accepted(names[j], items', fileExists)
    ensures FirstAccepted(names, items, fileExists) == FirstAccepted(names, items', fileExists)
  {
    if names != [] && !Accepted(names[0], items, fileExists) {
      FirstAcceptedAgrees(names[1..], items, items', fileExists);
    }
  }

  /** With a spine `toc` other than "toc.ncx", the "toc.ncx" entry plays no part in the probe. */
  lemma NcxNotProbedWithSpineToc(t: string, items: map<string, ManifestItem>, fileExists: string -> bool)
    requires t != DefaultNcxId
    ensures CandidateMatch(Some(t), items, fileExists) == CandidateMatch(Some(t), items - {DefaultNcxId}, fileExists)
  {
    var names := Candidates(Some(t));
    assert forall j :: 0 <= j < |names| ==> names[j] != DefaultNcxId;
    FirstAcceptedAgrees(names, items, items - {DefaultNcxId}, fileExists);
  }

  /** An entry whose file does not exist is skipped: the probe goes on as if the entry were absent. */
  lemma MissingFileSkipped(spineToc: Option<string>, items: map<string, ManifestItem>, fileExists: string -> bool, name: string)
    requires name in items && !fileExists(items[name].path)
    ensures CandidateMatch(spineToc, items, fileExists) == CandidateMatch(spineToc, items - {name}, fileExists)
  {
    var names := Candidates(spineToc);
    FirstAcceptedAgrees(names, items, items - {name}, fileExists);
    var i := FirstAccepted(names, items, fileExists);
    if i < |names| {
      assert names[i] != name;
    }
  }

  /** The earliest accepted candidate decides the outcome, whatever the later candidates and the fallback offer. */
  lemma EarliestAcceptedCandidateWins(spineToc: Option<string>, items: map<string, ManifestItem>,
                                      fileExists: string -> bool, i: nat, r: Result<string, ParseError>)
    requires i < 3 && Accepted(Candidates(spineToc)[i], items, fileExists)
    requires forall j :: 0 <= j < i ==> !Accepted(Candidates(spineToc)[j], items, fileExists)
    ensures IsTocResolution(spineToc, items, fileExists, r) <==> r == Success(items[Candidates(spineToc)[i]].path)
  {
    assert FirstAccepted(Candidates(spineToc), items, fileExists) == i;
  }

  /** An accepted spine `toc` wins over every other candidate, "toc.ncx" included. */
  lemma SpineTocTakesPriority(t: string, items: map<string, ManifestItem>, fileExists: string -> bool,
                              r: Result<string, ParseError>)
    requires Accepted(t, items, fileExists)
    ensures IsTocResolution(Some(t), items, fileExists, r) <==> r == Success(items[t].path)
  {
    EarliestAcceptedCandidateWins(Some(t), items, fileExists, 0, r);
  }

  /** When no candidate is accepted, any entry keyed or identified "toc" may supply the path, even if its file is missing. */
  lemma FallbackSkipsExistenceCheck(spineToc: Option<string>, items: map<string, ManifestItem>,
                                     fileExists: string -> bool, k: string)
    requires CandidateMatch(spineToc, items, fileExists).None?
    requires IsFallbackKey(items, k)
    ensures IsTocResolution(spineToc, items, fileExists, Success(items[k].path))
  {
  }

  /** A fallback result is the path of an entry keyed or identified "toc". */
  lemma FallbackResultIsTocEntry(spineToc: Option<string>, items: map<string, ManifestItem>,
                                 fileExists: string -> bool, p: string)
    requires CandidateMatch(spineToc, items, fileExists).None?
    requires IsTocResolution(spineToc, items, fileExists, Success(p))
    ensures exists k :: k in items && (k == FallbackId || items[k].id == FallbackId) && items[k].path == p
  {
    var k :| IsFallbackKey(items, k) && items[k].path == p;
  }

  /** Resolution fails exactly when no candidate is accepted and no entry passes the fallback filter, and then with `tableOfContentsMissing`. */
  lemma ResolutionFailsOnlyWhenNothingMatches(spineToc: Option<string>, items: map<string, ManifestItem>,
                                              fileExists: string -> bool, e: ParseError)
    ensures IsTocResolution(spineToc, items, fileExists, Failure(e)) <==>
            && e == TableOfContentsMissing
            && (forall i :: 0 <= i < 3 ==> !Accepted(Candidates(spineToc)[i], items, fileExists))
            && (forall k :: !IsFallbackKey(items, k))
  {
  }

  /** Every resolved path is the `path` of some manifest item. */
  lemma ResolvedPathIsItemPath(spineToc: Option<string>, items: map<string, ManifestItem>,
                               fileExists: string -> bool, p: string)
    requires IsTocResolution(spineToc, items, fileExists, Success(p))
    ensures exists k :: k in items && items[k].path == p
  {
    match CandidateMatch(spineToc, items, fileExists)
    case Some(q) =>
      var names := Candidates(spineToc);
      var i := FirstAccepted(names, items, fileExists);
      assert names[i] in items && items[names[i]].path == p;
    case None =>
      FallbackResultIsTocEntry(spineToc, items, fileExists, p);
  }

  /** In a manifest keyed by id the fallback can only pick the entry keyed "toc", so exactly one outcome is admissible. */
  lemma KeyedResolutionIsDeterministic(spineToc: Option<string>, items: map<string, ManifestItem>,
                                       fileExists: string -> bool, r1: Result<string, ParseError>,
                                       r2: Result<string, ParseError>)
    requires KeyedById(items)
    requires IsTocResolution(spineToc, items, fileExists, r1) && IsTocResolution(spineToc, items, fileExists, r2)
    ensures r1 == r2
  {
    if CandidateMatch(spineToc, items, fileExists).None? && exists k :: IsFallbackKey(items, k) {
      var k1 :| IsFallbackKey(items, k1) && r1 == Success(items[k1].path);
      var k2 :| IsFallbackKey(items, k2) && r2 == Success(items[k2].path);
      assert k1 == FallbackId && k2 == FallbackId;
    }
  }

  /** In a manifest keyed by id the fallback is `getTOCPath(id: "toc")`. */
  lemma KeyedFallbackIsGetTocPath(spineToc: Option<string>, m: Manifest, fileExists: string -> bool,
                                  r: Result<string, ParseError>)
    requires KeyedById(m.children)
    requires CandidateMatch(spineToc, m.children, fileExists).None?
    requires IsTocResolution(spineToc, m.children, fileExists, r)
    ensures r.Success? <==> GetTocPath(m, FallbackId).Success?
    ensures r.Success? ==> r.value == GetTocPath(m, FallbackId).value
  {
    if r.Success? {
      var k :| IsFallbackKey(m.children, k) && r == Success(m.children[k].path);
      assert k == FallbackId;
    } else if FallbackId in m.children {
      assert IsFallbackKey(m.children, FallbackId);
    }
  }

  /** Without ids matching keys, the fallback's choice depends on dictionary order: two outcomes are admissible. */
  lemma FallbackOrderUnspecified()
    ensures var items := map[FallbackId := ManifestItem("ncx", "a.ncx", MediaTypes.OPF2, None),
                             "nav" := ManifestItem(FallbackId, "b.xhtml", MediaTypes.XHTML, None)];
            && IsTocResolution(None, items, _ => true, Success("a.ncx"))
            && IsTocResolution(None, items, _ => true, Success("b.xhtml"))
  {
    var items := map[FallbackId := ManifestItem("ncx", "a.ncx", MediaTypes.OPF2, None),
                     "nav" := ManifestItem(FallbackId, "b.xhtml", MediaTypes.XHTML, None)];
    var fe: string -> bool := _ => true;
    assert FirstAccepted(Candidates(None), items, fe) == 3 by {
      assert Candidates(None) == [DefaultNcxId, NavId, TocId];
      assert DefaultNcxId !in items && NavId !in items && TocId !in items;
    }
    assert IsFallbackKey(items, FallbackId) && IsFallbackKey(items, "nav");
  }
}
