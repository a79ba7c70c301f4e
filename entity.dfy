/**
 * `EpisodeEntity`: the three optional fields an NFO is built from, stored
 * through setters that normalise what they are given.
 */
module Entity {
  import opened Wrappers
  import opened Text

  class EpisodeEntity {
    var episodeTitle: Option<string>
    var episodeNumber: Option<int>
    var seasonNumber: Option<int>

    constructor ()
      ensures episodeTitle == None && episodeNumber == None && seasonNumber == None
    {
      episodeTitle := None;
      episodeNumber := None;
      seasonNumber := None;
    }

    /** The `episodeTitle` setter: the text without surrounding whitespace,
        or `None`; the numbers are left alone. */
    method SetEpisodeTitle(value: Option<string>)
      modifies this
      ensures value.None? ==> episodeTitle == None
      ensures value.Some? ==> episodeTitle == Some(Strip(value.value))
      ensures episodeNumber == old(episodeNumber) && seasonNumber == old(seasonNumber)
    {
      if value.Some? {
        episodeTitle := Some(Strip(value.value));
      } else {
        episodeTitle := None;
      }
    }

    /** The `episodeNumber` setter: `int()` of an integer is that integer;
        the other fields are left alone. */
    method SetEpisodeNumber(value: Option<int>)
      modifies this
      ensures episodeNumber == value
      ensures episodeTitle == old(episodeTitle) && seasonNumber == old(seasonNumber)
    {
      episodeNumber := value;
    }

    /** The `seasonNumber` setter, like `SetEpisodeNumber`. */
    method SetSeasonNumber(value: Option<int>)
      modifies this
      ensures seasonNumber == value
      ensures episodeTitle == old(episodeTitle) && episodeNumber == old(episodeNumber)
    {
      seasonNumber := value;
    }
  }
}
