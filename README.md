# filename-to-nfo, modelled in Dafny

filename-to-nfo walks a directory tree of video files. Next to each video of
a supported container type it writes a Kodi episode NFO: a small XML document
`<episodedetails>` holding the episode title, the season and episode numbers
and a unique id. All of this is inferred from names only:

- `DirectoryParser` matches the base name of the directory against four
  regular expressions and takes the season from the first one that matches.
- `FileParser` matches the file name without its extension against three
  more and fills in the season, the episode number and the title. Each field
  falls back to a default when no pattern supplies it.
- `EpisodeEntity` stores the three fields through setters that normalise
  them.
- `EpisodeNfo` builds the element tree, indents it in place with
  `_prettify`, serialises it after the XML declaration, and names the sidecar
  file `<root>.nfo` in the same directory. Its unique id is the MD5 of a
  source string chosen by a setting.
- The main loop decides, file by file, whether to write an NFO, skip the file
  (no extension, an `.nfo`, an unsupported type), or record it as skipped
  because its NFO already exists. It counts the files it processed.

The Dafny modules follow that structure:

| module | file | contents |
|---|---|---|
| `Wrappers` | `wrappers.dfy` | `Option` |
| `Text` | `text.dfy` | ASCII character classes, `str.lower`, `str.strip`, `int()` and `str()` of decimal digits |
| `Regex` | `regex.dfy` | `re.match` for patterns made of greedily quantified character classes. Named groups, `groupdict()`, and the first pattern of a list that matches. |
| `Patterns` | `patterns.dfy` | the seven regular expressions of the parsers, and what each one matches |
| `Entity` | `entity.dfy` | the `EpisodeEntity` class |
| `Parsers` | `parsers.dfy` | the `DirectoryParser` and `FileParser` classes and the functions that specify them |
| `ParserExamples` | `examples_parsers.dfy` | the parsers on the names the source comments give as examples |
| `Nfo` | `nfo.dfy` | the element tree, `buildNfo`, `_prettify`, ElementTree serialisation, `generateId`, `basename`/`path`, and the `EpisodeNfo` class |
| `Driver` | `driver.dfy` | the per-file decision, the loop over one directory, and its counters |

A stateful class is proved against a pure specification function, and the
properties are proved about that function:

- `DirectoryParser` against `DirectorySeason`.
- `FileParser` against `ParseFile`.
- `_prettify` against `Pretty`.
- The directory loop against `Written`/`Skipped`, which are built from
  `Decide` and `Document`.

The regular-expression engine is specified by `Accepts`, a decomposition of
the input that the pattern admits. `MatchAtGreedy` proves that the
backtracking search returns the lexicographically greatest such
decomposition, which is the one Python's leftmost-greedy matcher reports.

## Model

| member | source | states |
|---|---|---|
| Text.LowerStringCases | main.py:306 | no upper-case ASCII letter is left; exactly the upper-case letters change, each into its lower-case letter; the length is kept |
| Text.LowerStringIdempotent | main.py:306 | lowercasing a lowercased extension changes nothing |
| Text.StripEdges | main.py:54 | a stripped title neither starts nor ends with whitespace |
| Text.StripIdempotent | main.py:54 | stripping twice is stripping once |
| Text.StripPadded | main.py:54 | stripping removes exactly the surrounding whitespace of a padded text |
| Text.DecimalRoundTrip | main.py:108-115 | `int(str(n)) == n` for every natural number written into the NFO |
| Text.LeadingZero | main.py:281-283 | `int()` ignores leading zeros, so `01` and `1` give the same number |
| Regex.MatchAtSound | main.py:213 | a match found is a decomposition the pattern accepts (classes, repetition bounds, `$`) |
| Regex.MatchAtGreedy | main.py:277 | no match is found only when no decomposition exists; otherwise the one found is the leftmost-greedy (lexicographically greatest) one |
| Regex.MatchKeys | main.py:215 | `groupdict()` of a match has exactly the group names of the pattern as keys |
| Regex.FirstMatch | main.py:212-214 | the index found is the first pattern that matches; it is absent exactly when none matches |
| Patterns.GroupNames | main.py:172-191 | the group names of each of the seven patterns, which decide which fields a match sets |
| Patterns.LeadingNumberMatch | main.py:177 | `^(\d+)` matches exactly the names that start with a digit, and captures the whole leading digit run |
| Patterns.TrailingNumberMatch | main.py:182 | non-word characters ending in whitespace, then only digits: the pattern matches and captures those digits |
| Patterns.TrailingNumberNeedsNonWord | main.py:182 | `re.match` anchors `\W+\s+(\d+)$` at 0, so a name that starts with a word character never matches it |
| Patterns.SpecialsMatch | main.py:185 | the specials pattern matches exactly when the name starts with `Specials` in any case |
| Patterns.KeywordNumberNeedsSeparator | main.py:190 | the bracketed keyword list is a set of single characters, so the pattern needs a non-word second character |
| Patterns.SeparatorClass | main.py:230 | `[-\.x]` under IGNORECASE admits exactly `-`, `.`, `x` and `X` |
| Patterns.EpisodeMatch | main.py:230-231 | `\d{2,}\W*\s*.+$` matches exactly when the digit run, less one digit kept for the title if needed, has two or more digits |
| Patterns.EpisodeFirstMatch | main.py:237 | the second file pattern matches exactly when the episode run is two digits or more; it captures the episode digits and the title, with no season group |
| Patterns.SxxEyyNeedsS | main.py:242-243 | the third file pattern matches only names that start with `s` or `S` |
| Entity.EpisodeEntity.constructor | main.py:43-46 | a new entity has all three fields `None` |
| Entity.EpisodeEntity.SetEpisodeTitle | main.py:52-54 | `None` stays `None`; otherwise the stripped text is stored; the numbers are unchanged |
| Entity.EpisodeEntity.SetEpisodeNumber | main.py:60-62 | stores the number or `None`; the other fields are unchanged |
| Entity.EpisodeEntity.SetSeasonNumber | main.py:68-70 | stores the number or `None`; the other fields are unchanged |
| Parsers.DirectoryParser.constructor | main.py:193-200 | the new parser holds the name and its season `DirectorySeason(name)` |
| Parsers.DirectoryParser.SetDirectory | main.py:202-204 | setting a name stores it and sets the season to `DirectorySeason(name)`, whatever it was before |
| Parsers.DirectoryParser.Parse | main.py:210-220 | the loop resets the season and stops at the first match, giving `DirectorySeason` |
| Parsers.DirectoryHit | main.py:210-220 | the first matching directory pattern alone decides the season: 0 for specials, otherwise the value of its digits |
| Parsers.DirectorySeasonNone | main.py:210-220 | the season is `None` exactly when no directory pattern matches |
| Parsers.LeadingDigitsSeason | main.py:177 | a name that starts with a digit gets the value of its leading digit run as its season |
| Parsers.TrailingDigitsSeason | main.py:182 | non-word characters, whitespace, then digits give the value of those digits |
| Parsers.SpecialsSeason | main.py:185 | a name that starts with `Specials` in any case is season 0 |
| Parsers.FileParser.constructor | main.py:248-260 | the new parser keeps the given season and title as its defaults and holds `ParseFile` of the name |
| Parsers.FileParser.SetFile | main.py:262-264 | setting a name gives `ParseFile` of that name and the fixed defaults. Earlier parses leave no trace, so parsing the same name again gives the same fields. |
| Parsers.FileParser.Parse | main.py:271-286 | the loop resets to the defaults and stops at the first match, giving `ParseFile` |
| Parsers.FileHit | main.py:276-286 | the first matching file pattern overwrites exactly the fields it has groups for |
| Parsers.SeasonCrossEpisodeHit | main.py:229-232 | a match of the first file pattern sets all three fields from its groups |
| Parsers.EpisodeFirstHit | main.py:237 | a match of the second file pattern sets the episode and title and keeps the default season |
| Parsers.SxxEyyHit | main.py:239-243 | when only the third file pattern matches, it sets the season, the episode and the title from its groups |
| Parsers.FileNoMatch | main.py:273-276 | no episode number is inferred exactly when no file pattern matches, and then the season and title are the defaults |
| Parsers.FileMatchFields | main.py:280-285 | any match gives a non-negative episode number and a non-empty title |
| Parsers.SeasonCrossEpisodeParse | main.py:229-232 | `1x01. Title` form: season is the leading digits, episode the digits after the separator, title what follows the non-word run |
| Parsers.EpisodeFirstParse | main.py:237 | `01. Title` form (when the first pattern fails): episode from the leading digits, title after them, default season |
| Parsers.UnnumberedParse | main.py:271-286 | a name that fits no numbered form and does not start with `s` keeps the defaults and has no episode number |
| ParserExamples.DescriptionExample | main.py:173 | `01. Description` is season 1 |
| ParserExamples.IgnoredExample | main.py:176 | `02Ignored` is season 2 |
| ParserExamples.SpecialsExample | main.py:184-185 | `SPECIALS and extras` is season 0 |
| ParserExamples.TrailingNumberExample | main.py:182 | `- 05` is season 5 |
| ParserExamples.SeasonWordExample | main.py:179-190 | `Season 02` matches none of the four directory patterns, so the season is `None` |
| ParserExamples.SeasonCrossEpisodeExample | main.py:226 | `1x01. Pilot` is season 1, episode 1, title `Pilot` |
| ParserExamples.EpisodeFirstExample | main.py:237 | `0123` is episode 12, title `3`; the greedy digit run gives back one digit for the title |
| ParserExamples.SxxEyyExample | main.py:239-243 | `S01E02.Pilot` is season 1, episode 2, title `Pilot`: the third pattern matches case-insensitively and `\W*` takes the dot |
| ParserExamples.UnnumberedExample | main.py:271-286 | `Pilot` keeps the default season and title and has no episode number |
| Nfo.Path | main.py:98-100 | the sidecar path ends with the basename; under a plain directory it is `dir/basename` |
| Nfo.JoinSeparatesNames | main.py:100 | under one directory, two relative names give the same path only if they are equal |
| Nfo.JoinSeparatesDirectories | main.py:132-133 | the `path` id source tells the same file name in two directories apart |
| Nfo.IdSourceCases | main.py:125-134 | `filename` hashes the file name alone; `absolute` hashes the absolute form of the `path` source; every other setting hashes the joined path, which ends with the file name |
| Nfo.NumberTextRoundTrip | main.py:108-115 | the text written for a season or episode reads back as the same optional number, and an unknown number is written as the empty text |
| Nfo.NfoOrder | main.py:102-123 | the children are `title`, then `season` and `episode` only if set or empty elements are on, then `uniqueid`, then the extra elements only if empty elements are on |
| Nfo.NfoReadBack | main.py:102-123 | the title, the season and the episode can be read back from the children, and are present exactly under the emission rules; an unknown season or episode that is emitted has empty text; the `uniqueid` element is always there, with `type` set to the id type and the id as text |
| Nfo.EpisodeNfo.constructor | main.py:78-91 | the fields are as given; no episode, no tree |
| Nfo.EpisodeNfo.BuildNfo | main.py:102-123 | the tree built is `Tree()`: the `NfoTree` of the episode and the settings, whose child order is `NfoOrder` and whose contents, `uniqueid` type included, are `NfoReadBack` |
| Nfo.EpisodeNfo.Export | main.py:136-145 | the tree is built if missing and indented in place; the document is the declaration, a newline and the serialised indented tree |
| Nfo.Pretty | main.py:156-167 | indentation keeps tag, attributes, tail and the number of children, and leaves a leaf unchanged |
| Nfo.Prettify | main.py:156-167 | the recursive in-place walk computes `Pretty` |
| Nfo.PrettyIdempotent | main.py:156-167 | indenting an indented tree changes nothing |
| Nfo.PrettySkeleton | main.py:156-167 | indentation only adds whitespace: tags, attributes, leaf texts and structure are kept |
| Nfo.EscapeText | main.py:142-145 | escaped text contains no `<` or `>` |
| Nfo.EscapeTextRoundTrip | main.py:142-145 | unescaping the escaped text gives the text back |
| Nfo.PrettyLayout | main.py:141-145 | an indented root with leaf children is written as one child per line, indented by two spaces |
| Nfo.NfoLayout | main.py:141-145 | the NFO body is `<episodedetails>`, one line per child, then `</episodedetails>` on its own line |
| Driver.RFind | main.py:299 | the last index of a character, or -1 when it does not occur |
| Driver.SplitExtParts | main.py:299 | root and extension concatenate to the name; the extension is empty or a dot followed by no dot and no `/` |
| Driver.BasenameSplits | main.py:93-96 | the `basename` of the NFO of a file with an extension splits back into that file's root and `.nfo`, and the loop classifies it as an NFO file |
| Driver.SplitExtAgain | main.py:325 | replacing the extension of a name and splitting again gives the same root |
| Driver.DecideProcess | main.py:299-328 | a file is processed exactly when its lowercased extension is a container and (overwriting is on or its NFO is not in the listing) |
| Driver.NfoNeverProcessed | main.py:306-308 | an `.nfo` file in any case is never processed |
| Driver.ExistingSkipped | main.py:325-328 | without overwriting, a container file is recorded as skipped exactly when its NFO is in the listing |
| Driver.SidecarIsNfo | main.py:307-308 | the sidecar of a processed file is itself recognised as an NFO and never processed |
| Driver.ProcessedThenExists | main.py:325-328 | once a processed file's NFO is in a later listing, the file is skipped there |
| Driver.ExistsStays | main.py:325-328 | a file skipped for an existing NFO stays skipped in any larger listing |
| Driver.SidecarsWritten | main.py:340-342 | `Sidecars` has one name per written entry, in order, and each written path is the directory joined to that name |
| Driver.SidecarsCover | main.py:315-344 | the sidecar of every processed file of a listing is among its `Sidecars`, the NFO names the loop writes |
| Driver.SidecarsAreNfo | main.py:307-308 | every name in `Sidecars` is recognised as an NFO, in any listing |
| Driver.NothingWritten | main.py:298-345 | a listing with no processable file writes nothing |
| Driver.RerunWritesNothing | main.py:298-345 | running over the listing with the NFOs written added writes nothing more |
| Driver.Walk.constructor | main.py:36-37 | the counters start at zero and the skipped list empty |
| Driver.Walk.VisitDirectory | main.py:298-345 | writes `Written` of the listing; `total` grows by the number of files processed and no other; `skipped` grows by the NFO paths found existing |
| Driver.VisitListing | main.py:298-345 | the loop over the listing produces exactly `Written` and `Skipped` |
| Driver.VisitEntry | main.py:299-345 | one file produces its `SkippedFor` and at most one written entry, its `WrittenFor` |
| Driver.VisitFile | main.py:315-344 | a processed file's NFO goes to `dir/root.nfo` and holds `Document` of the file; the NFO is left holding a fresh entity with the parsed fields and the indented tree of those fields |
| Driver.ParsedEpisode | main.py:330-337 | the entity holds the stripped title, the season and the episode `ParseFile` gives the root with the directory's season and the root as title |
| Driver.ExportEpisode | main.py:339-341 | the NFO holds the episode and is left with the indented tree of its fields; the document is the declaration and that tree, with the configured settings |

## Left out

- The `os.walk` traversal is not modelled. `Walk.VisitDirectory` is the loop body for one directory: the caller passes its path and its file listing.
- `sorted(files)` is not modelled. The listing is taken in the order given, so a caller that wants the source's order passes it sorted.
- MD5 and `os.path.abspath` are passed in as functions, so the model says which string is hashed but not what the hash is.
- Writing the file, `print`, logging and the `IOError` branches are not modelled. A processed file counts as written.
- The module-level `written` list receives each path twice: once in `export` (main.py:152) and again in the loop (main.py:342). The model records each processed file once, as its path and document.
- Walk.VisitDirectory: adds the directory's counts to `total` and `skipped` after its loop rather than file by file. The final values are the same.
- `buildNfo` reads the episode from the module-level variable `episode`, not `self.episode`. In the only call site these are the same object, so the model reads `self.episode`.
- The unused `indent` field and the constructor's default arguments are not modelled. The loop passes every argument.
- `compileRegexes` and the compiled-pattern lists are not modelled. The patterns are constants.
- `re.match` is modelled for the constructs the seven patterns use: character classes under greedy quantifiers, anchored at the start, optionally ending in `$`. `re.VERBOSE` only removes the layout whitespace of the file patterns.
- Character classes are ASCII. Unicode digits, letters and whitespace, which Python's `\d`, `\w` and `\s` also accept, are not modelled. Neither is `int()` of non-ASCII digits.
- Non-ASCII letters count as `\W` in the model. So leading accented letters are dropped from titles: the model gives `01. Épisode` the title `pisode`, where Python keeps `Épisode`. Likewise `é 5` gets season 5 in the model and none in Python.
- `str.lower` and IGNORECASE folding of non-ASCII characters (such as the Kelvin sign U+212A in `.M\u212AV`) are not modelled: only `A`-`Z` are folded.
- The `EpisodeEntity` setters take an optional text or an optional integer, which is all the loop passes. The `str()`/`int()` conversion of other types, and its `ValueError`, are not modelled.
- Nfo.EscapeAttribute: attribute values are escaped for `&`, `<`, `>` and `"` only. The model does not state ElementTree's handling of newlines and tabs in attribute values.
- `_prettify` is modelled on element values: `Prettify` returns the indented tree and `Export` stores it. Aliasing between elements is not modelled.
- The comments above the second and fourth directory patterns (main.py:179-181 and 187-189) give names such as `Season 01` and `Chapter 2` as examples. The code as written matches none of them, and the model follows the code (see `ParserExamples.SeasonWordExample`).
- The configuration constants are fixed to the values at main.py:13-35: `overwrite` false, empty elements on, id source `path`, id type `hashpath`. `Decide` takes `overwrite` as a parameter.
