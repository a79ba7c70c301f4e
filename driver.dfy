/**
 * The loop that walks one directory: which files get an NFO, which are
 * skipped, and the document written for each one that does.
 */
module Driver {
  import opened Wrappers
  import opened Text
  import opened Parsers
  import opened Entity
  import opened Nfo

  // ---- Settings ----

  const OverwriteExisting := false
  const OutputEmptyElements := true
  const Containers := [".avchd", ".avi", ".flv", ".swf", ".f4v", ".mkv", ".mov", ".qt",
                       ".mp4", ".m4p", ".m4v", ".mpg", ".mp2", ".mpeg", ".mpe", ".mpv",
                       ".ogg", ".webm", ".wmv"]
  const ExtraElements := ["plot", "credits", "aired", "userrating"]
  const UniqueIdSource := "path"
  const UniqueIdType := "hashpath"

  // ---- Paths ----

  /** `str.rfind(c)`: the last index of `c`, or -1. */
  function RFind(s: string, c: char): (r: int)
    ensures -1 <= r < |s|
    ensures r >= 0 ==> s[r] == c
    ensures forall j :: r < j < |s| ==> s[j] != c
  {
    if s == [] then -1
    else if s[|s| - 1] == c then |s| - 1
    else RFind(s[..|s| - 1], c)
  }

  /** `os.path.basename` on POSIX paths: what follows the last `/`. */
  function BaseName(path: string): string {
    path[RFind(path, '/') + 1..]
  }

  /** Whether the name part of `p` before index `dot` has a character other
      than a dot. */
  predicate NamedBefore(p: string, dot: int)
    requires -1 <= dot < |p|
  {
    exists j :: RFind(p, '/') < j < dot && p[j] != '.'
  }

  /** `os.path.splitext` on POSIX paths: the extension starts at the last dot
      of the last component, unless only dots precede it there. */
  function SplitExt(p: string): (string, string) {
    var dot := RFind(p, '.');
    if dot > RFind(p, '/') && NamedBefore(p, dot) then (p[..dot], p[dot..]) else (p, "")
  }

  /** The root and the extension make up the name; the extension is empty or
      one dot followed by no dot and no `/`. */
  lemma SplitExtParts(p: string)
    ensures SplitExt(p).0 + SplitExt(p).1 == p
    ensures var e := SplitExt(p).1;
      e == [] || (e[0] == '.' && forall j :: 1 <= j < |e| ==> e[j] != '.' && e[j] != '/')
  {
    var dot := RFind(p, '.');
    if dot > RFind(p, '/') && NamedBefore(p, dot) {
      assert p[..dot] + p[dot..] == p;
      var e := p[dot..];
      forall j | 1 <= j < |e|
        ensures e[j] != '.' && e[j] != '/'
      {
        assert e[j] == p[dot + j];
      }
    }
  }

  /** A root that `SplitExt` produced, with a new extension, splits back into
      that root and that extension. */
  lemma SplitExtAgain(p: string, ext: string)
    requires SplitExt(p).1 != []
    requires |ext| >= 1 && ext[0] == '.' && forall j :: 1 <= j < |ext| ==> ext[j] != '.' && ext[j] != '/'
    ensures SplitExt(SplitExt(p).0 + ext) == (SplitExt(p).0, ext)
  {
    var dot := RFind(p, '.');
    var root := p[..dot];
    var q := root + ext;
    var w :| RFind(p, '/') < w < dot && p[w] != '.';
    assert RFind(q, '.') == dot by {
      assert q[dot] == '.';
    }
    assert RFind(q, '/') == RFind(p, '/') by {
      var s := RFind(p, '/');
      assert forall j :: s < j < |q| ==> q[j] != '/' by {
        forall j | s < j < |q|
          ensures q[j] != '/'
        {
          if j < dot {
            assert q[j] == p[j];
          }
        }
      }
      if s >= 0 {
        assert q[s] == p[s];
      }
      RFindLast(q, '/', s);
    }
    assert q[w] == p[w];
    assert q[..dot] == root && q[dot..] == ext;
  }

  /** `RFind` is the position after which `c` no longer occurs. */
  lemma RFindLast(s: string, c: char, i: int)
    requires -1 <= i < |s| && (i >= 0 ==> s[i] == c)
    requires forall j :: i < j < |s| ==> s[j] != c
    ensures RFind(s, c) == i
  {
  }

  // ---- Selection ----

  /** What the loop does with one file of a directory listing. */
  datatype Decision =
    | NoExtension
    | NfoFile
    | Unsupported
    | Exists(root: string)
    | Process(root: string, extension: string)

  function Decide(file: string, listing: seq<string>, overwrite: bool): Decision {
    var root, ext := SplitExt(file).0, SplitExt(file).1;
    if ext == [] then NoExtension
    else if LowerString(ext) == Extension then NfoFile
    else if LowerString(ext) !in Containers then Unsupported
    else if !overwrite && root + Extension in listing then Exists(root)
    else Process(root, LowerString(ext))
  }

  /** A file is processed exactly when its extension, lowercased, is a
      container extension and its NFO is not in the listing (or overwriting
      is on); its root and extension are those of the file name. */
  lemma DecideProcess(file: string, listing: seq<string>, overwrite: bool)
    ensures Decide(file, listing, overwrite).Process? <==>
      var root, ext := SplitExt(file).0, SplitExt(file).1;
      LowerString(ext) in Containers && (overwrite || root + Extension !in listing)
    ensures Decide(file, listing, overwrite).Process? ==>
      var d := Decide(file, listing, overwrite);
      d.root + SplitExt(file).1 == file && d.extension == LowerString(SplitExt(file).1)
  {
    SplitExtParts(file);
    assert "" !in Containers;
    assert LowerString([]) == [];
    assert Extension !in Containers;
  }

  /** Any spelling of the `.nfo` extension is never processed. */
  lemma NfoNeverProcessed(file: string, listing: seq<string>, overwrite: bool)
    requires LowerString(SplitExt(file).1) == Extension
    ensures Decide(file, listing, overwrite) == NfoFile
  {
    assert LowerString([]) == [];
  }

  /** A file whose NFO is in the listing is skipped as existing when
      overwriting is off; the comparison is case-sensitive. */
  lemma ExistingSkipped(file: string, listing: seq<string>)
    requires LowerString(SplitExt(file).1) in Containers
    ensures Decide(file, listing, false).Exists? <==> SplitExt(file).0 + Extension in listing
  {
    assert LowerString([]) == [];
    assert Extension !in Containers;
  }

  // ---- One directory ----

  /** The `str.strip()` an `EpisodeEntity` applies to a title. */
  function StoredTitle(title: Option<string>): Option<string> {
    if title.Some? then Some(Strip(title.value)) else None
  }

  /** The document written for a processed file, given the season of its
      directory. */
  function Document(dir: string, root: string, ext: string, season: Option<int>,
                    md5: string -> string, abspath: string -> string): string
  {
    var ep := ParseFile(root, season, Some(root));
    var id := md5(IdSource(UniqueIdSource, Some(dir), root + ext, abspath));
    var tree := NfoTree(StoredTitle(ep.title), ep.season, ep.episode, OutputEmptyElements,
                        ExtraElements, UniqueIdType, id);
    Declaration + "\n" + Render(Pretty(tree, 0))
  }

  /** The NFO path and document written for one file of the listing, if any. */
  function WrittenFor(dir: string, file: string, listing: seq<string>,
                      md5: string -> string, abspath: string -> string): seq<(string, string)>
  {
    match Decide(file, listing, OverwriteExisting)
    case Process(root, ext) =>
      [(Join(dir, root + Extension), Document(dir, root, ext, DirectorySeason(BaseName(dir)), md5, abspath))]
    case _ => []
  }

  /** The NFO path recorded as skipped for one file of the listing, if any. */
  function SkippedFor(dir: string, file: string, listing: seq<string>): seq<string> {
    match Decide(file, listing, OverwriteExisting)
    case Exists(root) => [Join(dir, root + Extension)]
    case _ => []
  }

  /** The NFO paths and documents written for the files of a listing, in
      order. */
  function Written(dir: string, files: seq<string>, listing: seq<string>,
                   md5: string -> string, abspath: string -> string): seq<(string, string)>
  {
    if files == [] then []
    else Written(dir, files[..|files| - 1], listing, md5, abspath)
         + WrittenFor(dir, files[|files| - 1], listing, md5, abspath)
  }

  /** The NFO paths of the files skipped because their NFO exists. */
  function Skipped(dir: string, files: seq<string>, listing: seq<string>): seq<string> {
    if files == [] then []
    else Skipped(dir, files[..|files| - 1], listing) + SkippedFor(dir, files[|files| - 1], listing)
  }

  /** One more file of the listing adds its own entries at the end. */
  lemma WalkStep(dir: string, listing: seq<string>, i: nat, md5: string -> string, abspath: string -> string)
    requires i < |listing|
    ensures Written(dir, listing[..i + 1], listing, md5, abspath)
      == Written(dir, listing[..i], listing, md5, abspath) + WrittenFor(dir, listing[i], listing, md5, abspath)
    ensures Skipped(dir, listing[..i + 1], listing)
      == Skipped(dir, listing[..i], listing) + SkippedFor(dir, listing[i], listing)
  {
    assert listing[..i + 1][..i] == listing[..i];
  }

  /** The running totals of the walk. */
  class Walk {
    var total: nat
    var skipped: seq<string>

    constructor ()
      ensures total == 0 && skipped == []
    {
      total := 0;
      skipped := [];
    }

    /** The body of the walk for one directory: the files of `listing`, in
        the order given, against the whole listing; the counters grow by what
        the directory wrote and skipped. */
    method VisitDirectory(dir: string, listing: seq<string>, md5: string -> string, abspath: string -> string)
      returns (written: seq<(string, string)>)
      modifies this
      ensures written == Written(dir, listing, listing, md5, abspath)
      ensures total == old(total) + |written|
      ensures skipped == old(skipped) + Skipped(dir, listing, listing)
    {
      var skip;
      written, skip := VisitListing(dir, listing, md5, abspath);
      total := total + |written|;
      skipped := skipped + skip;
    }
  }

  /** The loop over the files of one directory, in the order given, each
      against the whole listing. */
  method VisitListing(dir: string, listing: seq<string>, md5: string -> string, abspath: string -> string)
    returns (written: seq<(string, string)>, skipped: seq<string>)
    ensures written == Written(dir, listing, listing, md5, abspath)
    ensures skipped == Skipped(dir, listing, listing)
  {
    var directoryParser := new DirectoryParser(BaseName(dir));
    var season := directoryParser.seasonNumber;
    written, skipped := [], [];
    var i := 0;
    while i < |listing|
      invariant 0 <= i <= |listing|
      invariant written == Written(dir, listing[..i], listing, md5, abspath)
      invariant skipped == Skipped(dir, listing[..i], listing)
    {
      var skip, out := VisitEntry(dir, listing[i], listing, season, md5, abspath);
      WalkStep(dir, listing, i, md5, abspath);
      skipped := skipped + skip;
      written := written + out;
      i := i + 1;
    }
    assert listing[..i] == listing;
  }

  /** One pass of the loop body: the selection rule, then the NFO of a file
      that passes it. */
  method VisitEntry(dir: string, file: string, listing: seq<string>, season: Option<int>,
                    md5: string -> string, abspath: string -> string)
    returns (skip: seq<string>, out: seq<(string, string)>)
    requires season == DirectorySeason(BaseName(dir))
    ensures skip == SkippedFor(dir, file, listing)
    ensures out == WrittenFor(dir, file, listing, md5, abspath)
    ensures |out| <= 1
  {
    skip, out := [], [];
    ghost var decision := Decide(file, listing, OverwriteExisting);
    var fileRoot, fileExtension := SplitExt(file).0, SplitExt(file).1;
    if fileExtension == [] {
      assert decision == NoExtension;
      return;
    }
    fileExtension := LowerString(fileExtension);
    if fileExtension == Extension || fileExtension !in Containers {
      assert decision.NfoFile? || decision.Unsupported?;
      return;
    }
    var nfo := new EpisodeNfo(Some(dir), Some(fileRoot), Some(fileExtension), OutputEmptyElements,
                              ExtraElements, UniqueIdSource, UniqueIdType);
    if !OverwriteExisting && nfo.Basename().value in listing {
      assert decision == Exists(fileRoot);
      skip := [nfo.Path()];
    } else {
      assert decision == Process(fileRoot, fileExtension);
      var entry := VisitFile(nfo, fileRoot, season, md5, abspath);
      out := [entry];
    }
  }

  /** Parses the file name, fills an `EpisodeEntity` from the parser and
      exports the NFO: its path and document. */
  method VisitFile(nfo: EpisodeNfo, fileRoot: string, season: Option<int>,
                   md5: string -> string, abspath: string -> string) returns (entry: (string, string))
    requires nfo.dirName.Some? && nfo.fileRoot == Some(fileRoot) && nfo.fileExtension.Some?
    requires nfo.xmlTree.None? && nfo.emptyElements == OutputEmptyElements
    requires nfo.extraElements == ExtraElements && nfo.uniqueIdSource == UniqueIdSource
    requires nfo.uniqueIdType == UniqueIdType
    modifies nfo`episode, nfo`xmlTree
    ensures entry.0 == Join(nfo.dirName.value, fileRoot + Extension)
    ensures entry.1 == Document(nfo.dirName.value, fileRoot, nfo.fileExtension.value, season, md5, abspath)
    ensures nfo.episode.Some? && fresh(nfo.episode.value)
    ensures var ep := ParseFile(fileRoot, season, Some(fileRoot));
      && nfo.episode.value.episodeTitle == StoredTitle(ep.title)
      && nfo.episode.value.seasonNumber == ep.season && nfo.episode.value.episodeNumber == ep.episode
      && nfo.xmlTree == Some(Pretty(NfoTree(StoredTitle(ep.title), ep.season, ep.episode, OutputEmptyElements,
                                            ExtraElements, UniqueIdType, nfo.GenerateId(md5, abspath)), 0))
  {
    var episode := ParsedEpisode(fileRoot, season);
    var doc := ExportEpisode(nfo, episode, md5, abspath);
    DocumentOf(nfo.dirName.value, fileRoot, nfo.fileExtension.value, season, md5, abspath, nfo.GenerateId(md5, abspath));
    entry := (nfo.Path(), doc);
  }

  /** Hands the episode to the NFO and exports it: the document holds the
      episode's fields and the id of the file. */
  method ExportEpisode(nfo: EpisodeNfo, episode: EpisodeEntity, md5: string -> string, abspath: string -> string)
    returns (doc: string)
    requires nfo.dirName.Some? && nfo.fileRoot.Some? && nfo.fileExtension.Some?
    requires nfo.xmlTree.None? && nfo.emptyElements == OutputEmptyElements
    requires nfo.extraElements == ExtraElements && nfo.uniqueIdSource == UniqueIdSource
    requires nfo.uniqueIdType == UniqueIdType
    modifies nfo`episode, nfo`xmlTree
    ensures nfo.episode == Some(episode)
    ensures nfo.xmlTree == Some(Pretty(NfoTree(episode.episodeTitle, episode.seasonNumber, episode.episodeNumber,
                                               OutputEmptyElements, ExtraElements, UniqueIdType,
                                               nfo.GenerateId(md5, abspath)), 0))
    ensures doc == Declaration + "\n" +
      Render(Pretty(NfoTree(episode.episodeTitle, episode.seasonNumber, episode.episodeNumber, OutputEmptyElements,
                            ExtraElements, UniqueIdType, nfo.GenerateId(md5, abspath)), 0))
  {
    nfo.episode := Some(episode);
    doc := nfo.Export(md5, abspath);
  }

  lemma DocumentOf(dir: string, root: string, ext: string, season: Option<int>,
                   md5: string -> string, abspath: string -> string, id: string)
    requires id == md5(IdSource(UniqueIdSource, Some(dir), root + ext, abspath))
    ensures var ep := ParseFile(root, season, Some(root));
      Document(dir, root, ext, season, md5, abspath) == Declaration + "\n" +
        Render(Pretty(NfoTree(StoredTitle(ep.title), ep.season, ep.episode, OutputEmptyElements,
                              ExtraElements, UniqueIdType, id), 0))
  {
  }

  /** The `EpisodeEntity` the setters fill from a `FileParser` of the file
      root, with the title as its default. */
  method ParsedEpisode(fileRoot: string, season: Option<int>) returns (episode: EpisodeEntity)
    ensures fresh(episode)
    ensures var ep := ParseFile(fileRoot, season, Some(fileRoot));
      && episode.episodeTitle == StoredTitle(ep.title)
      && episode.seasonNumber == ep.season && episode.episodeNumber == ep.episode
  {
    var fileParser := new FileParser(fileRoot, Some(fileRoot), season);
    episode := new EpisodeEntity();
    episode.SetEpisodeTitle(fileParser.episodeTitle);
    episode.SetEpisodeNumber(fileParser.episodeNumber);
    episode.SetSeasonNumber(fileParser.seasonNumber);
  }

  // ---- Running twice ----

  /** The NFO of a processed file is itself recognised as an NFO file. */
  lemma SidecarIsNfo(file: string, listing: seq<string>, overwrite: bool, other: seq<string>, again: bool)
    requires Decide(file, listing, overwrite).Process?
    ensures Decide(Decide(file, listing, overwrite).root + Extension, other, again) == NfoFile
  {
    ExtensionShape();
    SplitExtAgain(file, Extension);
  }

  /** The `basename` of the NFO built for a file that has an extension splits
      back into the root of that file and `.nfo`, so the loop classifies it
      as an NFO file. */
  lemma BasenameSplits(nfo: EpisodeNfo, file: string, listing: seq<string>, overwrite: bool)
    requires SplitExt(file).1 != [] && nfo.fileRoot == Some(SplitExt(file).0)
    ensures nfo.Basename().Some?
    ensures SplitExt(nfo.Basename().value) == (SplitExt(file).0, Extension)
    ensures Decide(nfo.Basename().value, listing, overwrite) == NfoFile
  {
    ExtensionShape();
    SplitExtAgain(file, Extension);
  }

  /** `.nfo` is an extension as `splitext` cuts one, and already lower case. */
  lemma ExtensionShape()
    ensures |Extension| >= 1 && Extension[0] == '.'
    ensures forall j :: 1 <= j < |Extension| ==> Extension[j] != '.' && Extension[j] != '/'
    ensures LowerString(Extension) == Extension
  {
    assert LowerString(Extension) == Extension;
  }

  /** Once its NFO is in the listing, a processed file is skipped. */
  lemma ProcessedThenExists(file: string, listing: seq<string>, later: seq<string>)
    requires Decide(file, listing, false).Process?
    requires Decide(file, listing, false).root + Extension in later
    ensures Decide(file, later, false).Exists?
  {
  }

  /** A file skipped as existing stays skipped when the listing grows. */
  lemma ExistsStays(file: string, listing: seq<string>, later: seq<string>)
    requires Decide(file, listing, false).Exists?
    requires forall n :: n in listing ==> n in later
    ensures Decide(file, later, false).Exists?
  {
  }

  /** The NFO names the walk of a listing produces. */
  function Sidecars(files: seq<string>, listing: seq<string>): seq<string> {
    if files == [] then []
    else
      Sidecars(files[..|files| - 1], listing)
      + match Decide(files[|files| - 1], listing, OverwriteExisting)
        case Process(root, _) => [root + Extension]
        case _ => []
  }

  /** `Sidecars` are the names of the NFO files the loop writes: one per
      written entry, in order, each joined to the directory. */
  lemma {:induction false} SidecarsWritten(dir: string, files: seq<string>, listing: seq<string>,
                                           md5: string -> string, abspath: string -> string)
    ensures |Sidecars(files, listing)| == |Written(dir, files, listing, md5, abspath)|
    ensures forall i :: 0 <= i < |Sidecars(files, listing)| ==>
      Written(dir, files, listing, md5, abspath)[i].0 == Join(dir, Sidecars(files, listing)[i])
  {
    if files != [] {
      SidecarsWritten(dir, files[..|files| - 1], listing, md5, abspath);
    }
  }

  lemma {:induction false} SidecarsCover(files: seq<string>, listing: seq<string>, i: nat)
    requires i < |files| && Decide(files[i], listing, OverwriteExisting).Process?
    ensures Decide(files[i], listing, OverwriteExisting).root + Extension in Sidecars(files, listing)
  {
    if i < |files| - 1 {
      SidecarsCover(files[..|files| - 1], listing, i);
    }
  }

  lemma {:induction false} SidecarsAreNfo(files: seq<string>, listing: seq<string>, name: string, other: seq<string>)
    requires name in Sidecars(files, listing)
    ensures Decide(name, other, OverwriteExisting) == NfoFile
  {
    var last := files[|files| - 1];
    if name in Sidecars(files[..|files| - 1], listing) {
      SidecarsAreNfo(files[..|files| - 1], listing, name, other);
    } else {
      SidecarIsNfo(last, listing, OverwriteExisting, other, OverwriteExisting);
    }
  }

  /** A listing none of whose files would be processed writes nothing. */
  lemma {:induction false} NothingWritten(dir: string, files: seq<string>, listing: seq<string>,
                                          md5: string -> string, abspath: string -> string)
    requires forall i :: 0 <= i < |files| ==> !Decide(files[i], listing, OverwriteExisting).Process?
    ensures Written(dir, files, listing, md5, abspath) == []
  {
    if files != [] {
      NothingWritten(dir, files[..|files| - 1], listing, md5, abspath);
    }
  }

  /** Walking a directory again after its NFO files were written writes
      nothing: every video file now finds its NFO in the listing, and the
      NFO files themselves are never processed. */
  lemma RerunWritesNothing(dir: string, listing: seq<string>, md5: string -> string, abspath: string -> string)
    ensures var later := listing + Sidecars(listing, listing);
      Written(dir, later, later, md5, abspath) == []
  {
    var later := listing + Sidecars(listing, listing);
    forall i | 0 <= i < |later|
      ensures !Decide(later[i], later, OverwriteExisting).Process?
    {
      if i < |listing| {
        var d := Decide(later[i], listing, OverwriteExisting);
        if d.Process? {
          SidecarsCover(listing, listing, i);
          ProcessedThenExists(later[i], listing, later);
        } else if d.Exists? {
          ExistsStays(later[i], listing, later);
        }
      } else {
        SidecarsAreNfo(listing, listing, later[i], later);
      }
    }
    NothingWritten(dir, later, later, md5, abspath);
  }
}
