/**
 * `DirectoryParser` and `FileParser`: the season, episode and title inferred
 * from a directory name and a file name by trying their pattern lists in
 * order, first match wins.
 */
module Parsers {
  import opened Wrappers
  import opened Text
  import opened Regex
  import opened Patterns

  // ---- What the patterns capture ----

  /** A `\d` atom spells only digit strings. */
  lemma DigitsSpelled(a: Atom, t: string)
    requires a.cls == Digit && Spells(a, t)
    ensures AllDigits(t) && |t| >= a.min
  {
    assert forall j :: 0 <= j < |t| ==> In(a.cls, t[j]);
  }

  /** Whatever a directory pattern captures for `seasonNumber` is a non-empty
      digit string, so `int()` reads it; the pattern without that group
      captures `seasonSpecials`. */
  lemma DirectoryCaptures(i: nat, s: string)
    requires i < |DirectoryPatterns| && Match(DirectoryPatterns[i], s).Some?
    ensures var d := Match(DirectoryPatterns[i], s).value;
      && (SeasonNumber in d || SeasonSpecials in d)
      && (SeasonNumber in d ==> AllDigits(d[SeasonNumber]) && d[SeasonNumber] != [])
  {
    var p := DirectoryPatterns[i];
    DirectoryWellFormed();
    GroupNames();
    MatchKeys(p, s);
    if i != 2 {
      MatchSpells(p, s, 0);
      DigitsSpelled(p.atoms[p.groups[0].first], Match(p, s).value[SeasonNumber]);
    }
  }

  /** Whatever a file pattern captures is a digit string for the two numbers
      (at least two digits for the episode) and a non-empty title. */
  lemma FileCaptures(i: nat, s: string)
    requires i < |FilePatterns| && Match(FilePatterns[i], s).Some?
    ensures var d := Match(FilePatterns[i], s).value;
      && (SeasonNumber in d <==> i != 1)
      && (SeasonNumber in d ==> AllDigits(d[SeasonNumber]) && d[SeasonNumber] != [])
      && EpisodeNumber in d && AllDigits(d[EpisodeNumber]) && |d[EpisodeNumber]| >= 2
      && EpisodeTitle in d && d[EpisodeTitle] != []
  {
    var p := FilePatterns[i];
    GroupNames();
    if i == 0 {
      SeasonCrossEpisodeWellFormed();
    } else if i == 1 {
      EpisodeFirstWellFormed();
    } else {
      SxxEyyWellFormed();
    }
    MatchKeys(p, s);
    var d := Match(p, s).value;
    var e, t := if i == 1 then 0 else 1, |p.groups| - 1;
    MatchSpells(p, s, e);
    DigitsSpelled(p.atoms[p.groups[e].first], d[EpisodeNumber]);
    MatchSpells(p, s, t);
    if i != 1 {
      MatchSpells(p, s, 0);
      DigitsSpelled(p.atoms[p.groups[0].first], d[SeasonNumber]);
    }
  }

  // ---- DirectoryParser ----

  /** The season one directory match sets: 0 for `seasonSpecials`, which is
      tested last, otherwise the value of the `seasonNumber` digits. */
  function SeasonOf(d: map<GroupName, string>): Option<int>
    requires SeasonNumber in d ==> AllDigits(d[SeasonNumber])
  {
    if SeasonSpecials in d then Some(0)
    else if SeasonNumber in d then Some(DecimalValue(d[SeasonNumber]))
    else None
  }

  /** The season `DirectoryParser.parse` infers from a directory base name. */
  function DirectorySeason(name: string): Option<int>
  {
    PatternsInside();
    match FirstMatch(DirectoryPatterns, name, 0)
    case None => None
    case Some(hit) =>
      DirectoryCaptures(hit.index, name);
      SeasonOf(hit.groups)
  }

  class DirectoryParser {
    var seasonNumber: Option<int>
    var directory: string

    constructor (directory: string)
      ensures this.directory == directory
      ensures seasonNumber == DirectorySeason(directory)
    {
      this.directory := directory;
      seasonNumber := None;
      new;
      Parse();
    }

    /** The `directory(value)` setter: store the name and parse it. */
    method SetDirectory(value: string)
      modifies this
      ensures directory == value
      ensures seasonNumber == DirectorySeason(value)
    {
      directory := value;
      Parse();
    }

    /** Reset the season, then let the first matching pattern set it. */
    method Parse()
      modifies this
      ensures directory == old(directory)
      ensures seasonNumber == DirectorySeason(directory)
    {
      PatternsInside();
      seasonNumber := None;
      var i := 0;
      while i < |DirectoryPatterns|
        invariant i <= |DirectoryPatterns|
        invariant directory == old(directory) && seasonNumber == None
        invariant FirstMatch(DirectoryPatterns, directory, i) == FirstMatch(DirectoryPatterns, directory, 0)
      {
        var m := Match(DirectoryPatterns[i], directory);
        if m.Some? {
          var d := m.value;
          DirectoryCaptures(i, directory);
          if SeasonNumber in d {
            seasonNumber := Some(DecimalValue(d[SeasonNumber]));
          }
          if SeasonSpecials in d {
            seasonNumber := Some(0);
          }
          break;
        }
        i := i + 1;
      }
    }
  }

  // ---- FileParser ----

  /** The three fields `FileParser` fills in. */
  datatype Episode = Episode(season: Option<int>, episode: Option<int>, title: Option<string>)

  /** The fields one file match overwrites: exactly those whose group the
      pattern has; the others keep the value they had. */
  function Overwrite(d: map<GroupName, string>, e: Episode): Episode
    requires SeasonNumber in d ==> AllDigits(d[SeasonNumber])
    requires EpisodeNumber in d ==> AllDigits(d[EpisodeNumber])
  {
    Episode(
      if SeasonNumber in d then Some(DecimalValue(d[SeasonNumber])) else e.season,
      if EpisodeNumber in d then Some(DecimalValue(d[EpisodeNumber])) else e.episode,
      if EpisodeTitle in d then Some(d[EpisodeTitle]) else e.title)
  }

  /** What `FileParser.parse` infers from a file root, given the default
      season and title the parser was built with. */
  function ParseFile(name: string, season: Option<int>, title: Option<string>): Episode
  {
    PatternsInside();
    match FirstMatch(FilePatterns, name, 0)
    case None => Episode(season, None, title)
    case Some(hit) =>
      FileCaptures(hit.index, name);
      Overwrite(hit.groups, Episode(season, None, title))
  }

  class FileParser {
    var seasonNumber: Option<int>
    var episodeTitle: Option<string>
    var episodeNumber: Option<int>
    var file: string
    /** The defaults `parse` resets to: `_seasonNumber` and `_episodeTitle`. */
    const defaultSeason: Option<int>
    const defaultTitle: Option<string>

    function Fields(): Episode
      reads this
    {
      Episode(seasonNumber, episodeNumber, episodeTitle)
    }

    constructor (file: string, episodeTitle: Option<string>, seasonNumber: Option<int>)
      ensures this.file == file
      ensures defaultSeason == seasonNumber && defaultTitle == episodeTitle
      ensures Fields() == ParseFile(file, seasonNumber, episodeTitle)
    {
      this.seasonNumber := seasonNumber;
      this.episodeTitle := episodeTitle;
      episodeNumber := None;
      this.file := file;
      defaultSeason := seasonNumber;
      defaultTitle := episodeTitle;
      new;
      Parse();
    }

    /** The `file(value)` setter: store the name and parse it. */
    method SetFile(value: string)
      modifies this
      ensures file == value
      ensures Fields() == ParseFile(value, defaultSeason, defaultTitle)
    {
      file := value;
      Parse();
    }

    /** Reset the three fields to their defaults, then let the first matching
        pattern overwrite the fields it has groups for.  The new state depends
        on the name and the defaults only, so parsing again changes nothing. */
    method Parse()
      modifies this
      ensures file == old(file)
      ensures Fields() == ParseFile(file, defaultSeason, defaultTitle)
    {
      PatternsInside();
      episodeTitle := defaultTitle;
      episodeNumber := None;
      seasonNumber := defaultSeason;
      var i := 0;
      while i < |FilePatterns|
        invariant i <= |FilePatterns|
        invariant file == old(file)
        invariant Fields() == Episode(defaultSeason, None, defaultTitle)
        invariant FirstMatch(FilePatterns, file, i) == FirstMatch(FilePatterns, file, 0)
      {
        var m := Match(FilePatterns[i], file);
        if m.Some? {
          var d := m.value;
          FileCaptures(i, file);
          if SeasonNumber in d {
            seasonNumber := Some(DecimalValue(d[SeasonNumber]));
          }
          if EpisodeNumber in d {
            episodeNumber := Some(DecimalValue(d[EpisodeNumber]));
          }
          if EpisodeTitle in d {
            episodeTitle := Some(d[EpisodeTitle]);
          }
          break;
        }
        i := i + 1;
      }
    }
  }

  // ---- What DirectoryParser infers ----

  /** The first matching directory pattern decides the season. */
  lemma DirectoryHit(name: string, i: nat, d: map<GroupName, string>)
    requires AllGroupsInside(DirectoryPatterns)
    requires i < |DirectoryPatterns| && Match(DirectoryPatterns[i], name) == Some(d)
    requires forall j :: 0 <= j < i ==> Match(DirectoryPatterns[j], name).None?
    ensures SeasonNumber in d ==> AllDigits(d[SeasonNumber])
    ensures DirectorySeason(name) == SeasonOf(d)
  {
    PatternsInside();
    FirstMatchIs(DirectoryPatterns, name, i, d);
    DirectoryCaptures(i, name);
  }

  /** The season is `None` exactly when no directory pattern matches: every
      match sets one. */
  lemma DirectorySeasonNone(name: string)
    ensures DirectorySeason(name).None? <==>
      forall i :: 0 <= i < |DirectoryPatterns| ==> Match(DirectoryPatterns[i], name).None?
  {
    PatternsInside();
    var r := FirstMatch(DirectoryPatterns, name, 0);
    if r.Some? {
      DirectoryCaptures(r.value.index, name);
    }
  }

  /** A name that starts with a digit takes the value of its whole leading
      digit run, whatever follows (`01. Description`, `02Ignored`). */
  lemma LeadingDigitsSeason(name: string)
    requires name != [] && IsDigit(name[0])
    ensures DirectorySeason(name) == Some(DecimalValue(name[..Run(Digit, name, 0)]))
  {
    LeadingNumberMatch(name);
    var d := Match(LeadingNumber, name).value;
    PatternsInside();
    DirectoryHit(name, 0, d);
    LeadingNumberKeys(name);
  }

  lemma LeadingNumberKeys(name: string)
    requires Match(LeadingNumber, name).Some?
    ensures SeasonSpecials !in Match(LeadingNumber, name).value
  {
    GroupNames();
    MatchKeys(LeadingNumber, name);
  }

  /** Non-word characters ending in whitespace, then only digits: the season
      is the value of those digits (`- 05`). */
  lemma TrailingDigitsSeason(name: string, n: nat)
    requires 2 <= n < |name| && (forall j :: 0 <= j < n ==> !IsWord(name[j])) && IsSpace(name[n - 1])
    requires forall j :: n <= j < |name| ==> IsDigit(name[j])
    ensures DirectorySeason(name) == Some(DecimalValue(name[n..]))
  {
    LeadingNumberMatch(name);
    TrailingNumberMatch(name, n);
    var d := Match(TrailingNumber, name).value;
    PatternsInside();
    DirectoryHit(name, 1, d);
    TrailingNumberKeys(name);
  }

  lemma TrailingNumberKeys(name: string)
    requires Match(TrailingNumber, name).Some?
    ensures SeasonSpecials !in Match(TrailingNumber, name).value
  {
    GroupNames();
    MatchKeys(TrailingNumber, name);
  }

  /** A name that starts with `Specials` in any case is season 0. */
  lemma SpecialsSeason(name: string)
    requires StartsWithIgnoringCase(name, "Specials")
    ensures DirectorySeason(name) == Some(0)
  {
    SpecialsPassesNumbers(name);
    SpecialsKeys(name);
    SpecialsHit(name, Match(Specials, name).value);
  }

  /** The third directory pattern, reached and matched with its group, gives 0. */
  lemma SpecialsHit(name: string, d: map<GroupName, string>)
    requires Match(LeadingNumber, name).None? && Match(TrailingNumber, name).None?
    requires Match(Specials, name) == Some(d) && SeasonSpecials in d
    ensures DirectorySeason(name) == Some(0)
  {
    PatternsInside();
    forall j | 0 <= j < 2
      ensures Match(DirectoryPatterns[j], name).None?
    {
      assert DirectoryPatterns[j] == if j == 0 then LeadingNumber else TrailingNumber;
    }
    DirectoryHit(name, 2, d);
  }

  /** A name starting with `s` passes the two number patterns by. */
  lemma SpecialsPassesNumbers(name: string)
    requires StartsWithIgnoringCase(name, "Specials")
    ensures Match(LeadingNumber, name).None? && Match(TrailingNumber, name).None?
  {
    assert Lower(name[0]) == LowerString(name[..8])[0] == 's';
    LeadingNumberMatch(name);
    TrailingNumberNeedsNonWord(name);
  }

  lemma SpecialsKeys(name: string)
    requires StartsWithIgnoringCase(name, "Specials")
    ensures Match(Specials, name).Some? && SeasonSpecials in Match(Specials, name).value
  {
    SpecialsMatch(name);
    GroupNames();
    MatchKeys(Specials, name);
  }

  // ---- What FileParser infers ----

  /** The first matching file pattern overwrites the defaults. */
  lemma FileHit(name: string, i: nat, d: map<GroupName, string>, season: Option<int>, title: Option<string>)
    requires i < |FilePatterns| && Match(FilePatterns[i], name) == Some(d)
    requires forall j :: 0 <= j < i ==> Match(FilePatterns[j], name).None?
    ensures SeasonNumber in d ==> AllDigits(d[SeasonNumber])
    ensures EpisodeNumber in d && AllDigits(d[EpisodeNumber])
    ensures ParseFile(name, season, title) == Overwrite(d, Episode(season, None, title))
  {
    PatternsInside();
    FileCaptures(i, name);
  }

  lemma SeasonCrossEpisodeHit(name: string, d: map<GroupName, string>, season: Option<int>, title: Option<string>)
    requires Match(SeasonCrossEpisode, name) == Some(d)
    ensures SeasonNumber in d && AllDigits(d[SeasonNumber])
    ensures EpisodeNumber in d && AllDigits(d[EpisodeNumber]) && EpisodeTitle in d
    ensures ParseFile(name, season, title) ==
      Episode(Some(DecimalValue(d[SeasonNumber])), Some(DecimalValue(d[EpisodeNumber])), Some(d[EpisodeTitle]))
  {
    FileHit(name, 0, d, season, title);
    FileCaptures(0, name);
  }

  lemma EpisodeFirstHit(name: string, d: map<GroupName, string>, season: Option<int>, title: Option<string>)
    requires Match(SeasonCrossEpisode, name).None? && Match(EpisodeFirst, name) == Some(d)
    ensures EpisodeNumber in d && AllDigits(d[EpisodeNumber]) && EpisodeTitle in d
    ensures ParseFile(name, season, title) ==
      Episode(season, Some(DecimalValue(d[EpisodeNumber])), Some(d[EpisodeTitle]))
  {
    FileHit(name, 1, d, season, title);
    FileCaptures(1, name);
  }

  /** The third pattern, reached only when the first two fail, sets all three
      fields. */
  lemma SxxEyyHit(name: string, d: map<GroupName, string>, season: Option<int>, title: Option<string>)
    requires Match(SeasonCrossEpisode, name).None? && Match(EpisodeFirst, name).None?
    requires Match(SxxEyy, name) == Some(d)
    ensures SeasonNumber in d && AllDigits(d[SeasonNumber])
    ensures EpisodeNumber in d && AllDigits(d[EpisodeNumber]) && EpisodeTitle in d
    ensures ParseFile(name, season, title) ==
      Episode(Some(DecimalValue(d[SeasonNumber])), Some(DecimalValue(d[EpisodeNumber])), Some(d[EpisodeTitle]))
  {
    FileHit(name, 2, d, season, title);
    FileCaptures(2, name);
  }

  lemma FileMiss(name: string, season: Option<int>, title: Option<string>)
    requires Match(SeasonCrossEpisode, name).None? && Match(EpisodeFirst, name).None?
    requires Match(SxxEyy, name).None?
    ensures ParseFile(name, season, title) == Episode(season, None, title)
  {
    FileNoMatch(name, season, title);
  }

  /** No file pattern matched exactly when no episode number is inferred;
      then the season and the title are the defaults. */
  lemma FileNoMatch(name: string, season: Option<int>, title: Option<string>)
    ensures ParseFile(name, season, title).episode.None? <==>
      forall i :: 0 <= i < |FilePatterns| ==> Match(FilePatterns[i], name).None?
    ensures ParseFile(name, season, title).episode.None? ==>
      ParseFile(name, season, title) == Episode(season, None, title)
  {
    PatternsInside();
    var r := FirstMatch(FilePatterns, name, 0);
    if r.Some? {
      FileCaptures(r.value.index, name);
    }
  }

  /** Any file match yields an episode number and a non-empty title; only
      the second pattern, which has no season group, keeps the default
      season. */
  lemma FileMatchFields(name: string, season: Option<int>, title: Option<string>)
    ensures var e := ParseFile(name, season, title);
      e.episode.Some? ==> e.episode.value >= 0 && e.title.Some? && e.title.value != []
    ensures Match(SeasonCrossEpisode, name).None? && Match(EpisodeFirst, name).Some? ==>
      ParseFile(name, season, title).season == season
  {
    PatternsInside();
    var r := FirstMatch(FilePatterns, name, 0);
    if r.Some? {
      FileCaptures(r.value.index, name);
    }
  }

  /** `1x01. Title`, `2x15 - Title`: the season is the leading digit run, the
      episode the digits after the separator, the title what follows. */
  lemma SeasonCrossEpisodeParse(name: string, n: nat, k: nat, season: Option<int>, title: Option<string>)
    requires OneLine(name, 0) && n == Run(Digit, name, 0)
    requires 1 <= n < |name| && IsSeparator(name[n]) && k == EpisodeLength(name, n + 1) >= 2
    ensures n + 1 + k < |name|
    ensures ParseFile(name, season, title) ==
      Episode(Some(DecimalValue(name[..n])), Some(DecimalValue(name[n + 1..n + 1 + k])),
              Some(Title(name, n + 1 + k)))
  {
    SeasonCrossEpisodeWellFormed();
    SeasonCrossEpisodeGroups(name, n, k);
    var d := Match(SeasonCrossEpisode, name).value;
    SeasonCrossEpisodeHit(name, d, season, title);
  }

  /** `01. Title`, `02 - Title`: at least two leading digits that the first
      pattern does not take give the episode; the season stays the default. */
  lemma EpisodeFirstParse(name: string, n: nat, k: nat, season: Option<int>, title: Option<string>)
    requires OneLine(name, 0) && n == Run(Digit, name, 0)
    requires !(1 <= n < |name| && IsSeparator(name[n]) && EpisodeLength(name, n + 1) >= 2)
    requires k == EpisodeLength(name, 0) >= 2
    ensures k < |name|
    ensures ParseFile(name, season, title) ==
      Episode(season, Some(DecimalValue(name[..k])), Some(Title(name, k)))
  {
    EpisodeFirstWellFormed();
    SeasonCrossEpisodeFails(name, n);
    EpisodeFirstMatch(name);
    var d := Match(EpisodeFirst, name).value;
    EpisodeFirstHit(name, d, season, title);
  }

  /** A name that fits neither numbered form and does not start with `s`
      keeps all three defaults, with no episode number. */
  lemma UnnumberedParse(name: string, n: nat, season: Option<int>, title: Option<string>)
    requires OneLine(name, 0) && n == Run(Digit, name, 0)
    requires !(1 <= n < |name| && IsSeparator(name[n]) && EpisodeLength(name, n + 1) >= 2)
    requires EpisodeLength(name, 0) < 2
    requires name == [] || Lower(name[0]) != 's'
    ensures ParseFile(name, season, title) == Episode(season, None, title)
  {
    EpisodeFirstWellFormed();
    SeasonCrossEpisodeFails(name, n);
    EpisodeFirstMatch(name);
    SxxEyyNeedsS(name);
    FileMiss(name, season, title);
  }
}
