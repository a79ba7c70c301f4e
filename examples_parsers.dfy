/**
 * The parsers on the names their source comments give as examples, and on a
 * few more that show the edge cases.  Each name is passed as a parameter
 * equal to the literal, which keeps the verifier from evaluating the whole
 * pattern search on it.
 */
module ParserExamples {
  import opened Wrappers
  import opened Text
  import opened Regex
  import opened Patterns
  import opened Parsers

  /** `int()` of the digit strings the examples capture. */
  lemma Decimals()
    ensures DecimalValue("1") == 1 && DecimalValue("01") == 1 && DecimalValue("02") == 2
    ensures DecimalValue("05") == 5 && DecimalValue("012") == 12
  {
    assert "012"[..2] == "01" && "01"[..1] == "0";
    assert "02"[..1] == "0" && "05"[..1] == "0";
  }

  lemma DescriptionExample(name: string)
    requires name == "01. Description"
    ensures DirectorySeason(name) == Some(1)
  {
    RunIs(Digit, name, 0, 2);
    LeadingDigitsSeason(name);
    assert name[..2] == "01";
    Decimals();
  }

  lemma IgnoredExample(name: string)
    requires name == "02Ignored"
    ensures DirectorySeason(name) == Some(2)
  {
    RunIs(Digit, name, 0, 2);
    LeadingDigitsSeason(name);
    assert name[..2] == "02";
    Decimals();
  }

  lemma SpecialsExample(name: string)
    requires name == "SPECIALS and extras"
    ensures DirectorySeason(name) == Some(0)
  {
    assert LowerString(name[..8]) == "specials";
    SpecialsSeason(name);
  }

  /** `\W+\s+(\d+)$` fires only on names that start with a non-word character. */
  lemma TrailingNumberExample(name: string)
    requires name == "- 05"
    ensures DirectorySeason(name) == Some(5)
  {
    TrailingDigitsSeason(name, 2);
    assert name[2..] == "05";
    Decimals();
  }

  /** The name the comment of the second directory pattern gives as its
      example matches none of the four patterns. */
  lemma SeasonWordExample(name: string)
    requires name == "Season 02"
    ensures DirectorySeason(name) == None
  {
    LeadingNumberMatch(name);
    TrailingNumberNeedsNonWord(name);
    assert LowerString(name[..8])[1] == 'e';
    SpecialsMatch(name);
    KeywordNumberNeedsSeparator(name);
    DirectorySeasonNone(name);
  }

  lemma SeasonCrossEpisodeExample(name: string, season: Option<int>, title: Option<string>)
    requires name == "1x01. Pilot"
    ensures ParseFile(name, season, title) == Episode(Some(1), Some(1), Some("Pilot"))
  {
    PilotShape(name);
    PilotParts(name);
    CrossParse(name, season, title);
  }

  /** Any one-line name whose first file pattern match splits as `1x01. Pilot`
      does. */
  lemma CrossParse(name: string, season: Option<int>, title: Option<string>)
    requires OneLine(name, 0) && Run(Digit, name, 0) == 1 && 1 < |name| && IsSeparator(name[1])
    requires EpisodeLength(name, 2) == 2
    requires DecimalValue(name[..1]) == 1 && DecimalValue(name[2..4]) == 1 && Title(name, 4) == "Pilot"
    ensures ParseFile(name, season, title) == Episode(Some(1), Some(1), Some("Pilot"))
  {
    SeasonCrossEpisodeParse(name, 1, 2, season, title);
  }

  /** The shape the first file pattern asks of `1x01. Pilot`. */
  lemma PilotShape(name: string)
    requires name == "1x01. Pilot"
    ensures OneLine(name, 0) && Run(Digit, name, 0) == 1 && 1 < |name| && IsSeparator(name[1])
    ensures EpisodeLength(name, 2) == 2
  {
    RunIs(Digit, name, 0, 1);
    RunIs(Digit, name, 2, 2);
  }

  lemma PilotParts(name: string)
    requires name == "1x01. Pilot"
    ensures DecimalValue(name[..1]) == 1 && DecimalValue(name[2..4]) == 1 && Title(name, 4) == "Pilot"
  {
    assert name[..1] == "1" && name[2..4] == "01";
    Decimals();
    RunIs(NonWord, name, 4, 2);
    assert TitleStart(name, 4) == 6;
  }

  /** The episode group gives back its last digit so that the title is not
      empty. */
  lemma EpisodeFirstExample(name: string, season: Option<int>, title: Option<string>)
    requires name == "0123"
    ensures ParseFile(name, season, title) == Episode(season, Some(12), Some("3"))
  {
    DigitsShape(name);
    EpisodeFirstParse(name, 4, 3, season, title);
    DigitsParts(name);
  }

  /** `0123` is all digits, so the first file pattern has no separator and the
      episode group keeps three of them. */
  lemma DigitsShape(name: string)
    requires name == "0123"
    ensures OneLine(name, 0) && Run(Digit, name, 0) == 4 && EpisodeLength(name, 0) == 3
  {
    RunIs(Digit, name, 0, 4);
  }

  lemma DigitsParts(name: string)
    requires name == "0123"
    ensures DecimalValue(name[..3]) == 12 && Title(name, 3) == "3"
  {
    RunIs(NonWord, name, 3, 0);
    assert TitleStart(name, 3) == 3;
    assert name[..3] == "012";
    Decimals();
  }

  /** `S01E02.Pilot`: the first two patterns need a leading digit, so the
      third one, matched case-insensitively, decides. */
  lemma SxxEyyExample(name: string, season: Option<int>, title: Option<string>)
    requires name == "S01E02.Pilot"
    ensures ParseFile(name, season, title) == Episode(Some(1), Some(2), Some("Pilot"))
  {
    MatchAtNeedsFirst(SeasonCrossEpisode.atoms, name, 0, true);
    MatchAtNeedsFirst(EpisodeFirst.atoms, name, 0, true);
    SxxEyyGroups(name);
    var d := Match(SxxEyy, name).value;
    SxxEyyHit(name, d, season, title);
    Decimals();
  }

  /** The groups of the third pattern on `S01E02.Pilot`. */
  lemma SxxEyyGroups(name: string)
    requires name == "S01E02.Pilot"
    ensures Match(SxxEyy, name).Some?
    ensures var d := Match(SxxEyy, name).value;
      && SeasonNumber in d && d[SeasonNumber] == "01"
      && EpisodeNumber in d && d[EpisodeNumber] == "02"
      && EpisodeTitle in d && d[EpisodeTitle] == "Pilot"
  {
    var c := [1, 2, 1, 2, 0, 1, 0, 5];
    SxxEyyCounts(name);
    SxxEyyWellFormed();
    SxxEyyOffsets(c);
    MatchNamed(SxxEyy, name, c, 0, SeasonNumber, 1, 3);
    MatchNamed(SxxEyy, name, c, 1, EpisodeNumber, 4, 6);
    MatchNamed(SxxEyy, name, c, 2, EpisodeTitle, 7, 12);
    SxxEyySlices(name);
  }

  lemma SxxEyyOffsets(c: seq<nat>)
    requires c == [1, 2, 1, 2, 0, 1, 0, 5]
    ensures Offset(c, 1) == 1 && Offset(c, 2) == 3 && Offset(c, 3) == 4 && Offset(c, 4) == 6
    ensures Offset(c, 7) == 7 && Offset(c, 8) == 12
  {
    assert Offset(c, 1) == 1 && Offset(c, 2) == 3 && Offset(c, 3) == 4 && Offset(c, 4) == 6;
    assert Offset(c, 5) == 6 && Offset(c, 6) == 7 && Offset(c, 7) == 7;
  }

  lemma SxxEyySlices(name: string)
    requires name == "S01E02.Pilot"
    ensures name[1..3] == "01" && name[4..6] == "02" && name[7..12] == "Pilot"
  {
  }

  /** The greedy search of the third pattern on `S01E02.Pilot`, atom by atom
      from the end: `\s?` finds no space, `\W*` takes the dot. */
  lemma SxxEyyCounts(name: string)
    requires name == "S01E02.Pilot"
    ensures MatchAt(SxxEyy.atoms, name, 0, true) == Some([1, 2, 1, 2, 0, 1, 0, 5])
  {
    var A := SxxEyy.atoms;
    SxxEyyNumbers(name);
    assert LowerString("s") == "s";
    GreedyAtMostOne(A[0], name, 0);
    MatchAtTakes(A, name, 0, true, 1, [2, 1, 2, 0, 1, 0, 5]);
    assert [1] + [2, 1, 2, 0, 1, 0, 5] == [1, 2, 1, 2, 0, 1, 0, 5];
  }

  /** `(\d{2,})e(\d{2,})` takes `01`, `E` and `02`. */
  lemma SxxEyyNumbers(name: string)
    requires name == "S01E02.Pilot"
    ensures MatchAt(SxxEyy.atoms[1..], name, 1, true) == Some([2, 1, 2, 0, 1, 0, 5])
  {
    var A := SxxEyy.atoms;
    SxxEyyEpisode(name);
    assert LowerString("e") == "e";
    GreedyAtMostOne(A[2], name, 3);
    assert A[2..][1..] == A[3..];
    MatchAtTakes(A[2..], name, 3, true, 1, [2, 0, 1, 0, 5]);
    assert [1] + [2, 0, 1, 0, 5] == [1, 2, 0, 1, 0, 5];
    GreedyUnbounded(A[1], name, 1, 2);
    assert A[1..][1..] == A[2..];
    MatchAtTakes(A[1..], name, 1, true, 2, [1, 2, 0, 1, 0, 5]);
    assert [2] + [1, 2, 0, 1, 0, 5] == [2, 1, 2, 0, 1, 0, 5];
  }

  /** The episode digits `02`, then the title. */
  lemma SxxEyyEpisode(name: string)
    requires name == "S01E02.Pilot"
    ensures MatchAt(SxxEyy.atoms[3..], name, 4, true) == Some([2, 0, 1, 0, 5])
  {
    var A := SxxEyy.atoms;
    SxxEyyTitle(name);
    GreedyUnbounded(A[3], name, 4, 2);
    assert A[3..][1..] == A[4..];
    MatchAtTakes(A[3..], name, 4, true, 2, [0, 1, 0, 5]);
    assert [2] + [0, 1, 0, 5] == [2, 0, 1, 0, 5];
  }

  /** `\s?\W*\s*(.+)$` after the episode digits: no space, the dot, no
      space, then `Pilot` to the end. */
  lemma SxxEyyTitle(name: string)
    requires name == "S01E02.Pilot"
    ensures MatchAt(SxxEyy.atoms[4..], name, 6, true) == Some([0, 1, 0, 5])
  {
    var A := SxxEyy.atoms;
    assert MatchAt(A[8..], name, 12, true) == Some([]);
    GreedyUnbounded(A[7], name, 7, 5);
    assert A[7..][1..] == A[8..];
    MatchAtTakes(A[7..], name, 7, true, 5, []);
    assert [5] + [] == [5];
    GreedyUnbounded(A[6], name, 7, 0);
    assert A[6..][1..] == A[7..];
    MatchAtTakes(A[6..], name, 7, true, 0, [5]);
    assert [0] + [5] == [0, 5];
    GreedyUnbounded(A[5], name, 6, 1);
    assert A[5..][1..] == A[6..];
    MatchAtTakes(A[5..], name, 6, true, 1, [0, 5]);
    assert [1] + [0, 5] == [1, 0, 5];
    GreedyAtMostOne(A[4], name, 6);
    assert A[4..][1..] == A[5..];
    MatchAtTakes(A[4..], name, 6, true, 0, [1, 0, 5]);
    assert [0] + [1, 0, 5] == [0, 1, 0, 5];
  }

  lemma UnnumberedExample(name: string, season: Option<int>, title: Option<string>)
    requires name == "Pilot"
    ensures ParseFile(name, season, title) == Episode(season, None, title)
  {
    RunIs(Digit, name, 0, 0);
    UnnumberedParse(name, 0, season, title);
  }
}
