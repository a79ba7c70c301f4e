/**
 * The two pattern lists of the parsers, written out in the `Regex` fragment,
 * in the order the parsers try them.  All of them are compiled with
 * re.IGNORECASE; the file patterns also with re.VERBOSE, which only drops the
 * layout whitespace inside their literals.
 */
module Patterns {
  import opened Wrappers
  import opened Text
  import opened Regex

  /** One occurrence of each character of `w`, in order: a literal word. */
  function Literal(w: string): (atoms: seq<Atom>)
    ensures |atoms| == |w|
    ensures forall i :: 0 <= i < |w| ==> atoms[i] == Atom(OneOf([w[i]]), 1, Some(1))
  {
    seq(|w|, i requires 0 <= i < |w| => Atom(OneOf([w[i]]), 1, Some(1)))
  }

  function Once(cls: CharClass): Atom { Atom(cls, 1, Some(1)) }
  function Star(cls: CharClass): Atom { Atom(cls, 0, None) }
  function Plus(cls: CharClass): Atom { Atom(cls, 1, None) }
  function AtLeastTwo(cls: CharClass): Atom { Atom(cls, 2, None) }
  function Optional(cls: CharClass): Atom { Atom(cls, 0, Some(1)) }

  /** The group names the parsers read back from `groupdict()`: `seasonNumber`,
      `seasonSpecials`, `episodeNumber` and `episodeTitle`. */
  datatype GroupName = SeasonNumber | SeasonSpecials | EpisodeNumber | EpisodeTitle

  // ---- DirectoryParser.REGEXES ----

  /** `^(?P<seasonNumber>\d+)` */
  const LeadingNumber := Pattern([Plus(Digit)], false, [Group(SeasonNumber, 0, 1)])

  /** `\W+\s+(?P<seasonNumber>\d+)$`, which `re.match` anchors at position 0. */
  const TrailingNumber :=
    Pattern([Plus(NonWord), Plus(Space), Plus(Digit)], true, [Group(SeasonNumber, 2, 3)])

  /** `^(?P<seasonSpecials>Specials)` */
  const Specials := Pattern(Literal("Specials"), false, [Group(SeasonSpecials, 0, 8)])

  /** `^[Season|Lesson|Chapter|Part]\W+\s+(?P<seasonNumber>\d+)`: the bracket is
      a set of single characters, not a choice of words. */
  const KeywordNumber :=
    Pattern([Once(OneOf("Season|Lesson|Chapter|Part")), Plus(NonWord), Plus(Space), Plus(Digit)],
            false, [Group(SeasonNumber, 3, 4)])

  const DirectoryPatterns := [LeadingNumber, TrailingNumber, Specials, KeywordNumber]

  // ---- FileParser.REGEXES ----

  /** `\W*\s*(?P<episodeTitle>.+)$`: the tail all three file patterns share. */
  const TitleAtoms := [Star(NonWord), Star(Space), Plus(AnyButNewline)]

  /** `(?P<episodeNumber>\d{2,})` followed by the title tail. */
  const EpisodeAtoms := [AtLeastTwo(Digit), Star(NonWord), Star(Space), Plus(AnyButNewline)]

  /** `^(?P<seasonNumber>\d+)[-\.x](?P<episodeNumber>\d{2,})\W*\s*(?P<episodeTitle>.+)$` */
  const SeasonCrossEpisode :=
    Pattern([Plus(Digit), Once(OneOf("-.x")),
             AtLeastTwo(Digit), Star(NonWord), Star(Space), Plus(AnyButNewline)],
            true, [Group(SeasonNumber, 0, 1), Group(EpisodeNumber, 2, 3), Group(EpisodeTitle, 5, 6)])

  /** `^(?P<episodeNumber>\d{2,})\W*\s*(?P<episodeTitle>.+)$` */
  const EpisodeFirst :=
    Pattern(EpisodeAtoms, true, [Group(EpisodeNumber, 0, 1), Group(EpisodeTitle, 3, 4)])

  /** `s(?P<seasonNumber>\d{2,})e(?P<episodeNumber>\d{2,})\s?\W*\s*(?P<episodeTitle>.+)$`,
      which `re.match` anchors at position 0. */
  const SxxEyy :=
    Pattern([Once(OneOf("s")), AtLeastTwo(Digit), Once(OneOf("e")), AtLeastTwo(Digit), Optional(Space),
             Star(NonWord), Star(Space), Plus(AnyButNewline)],
            true, [Group(SeasonNumber, 1, 2), Group(EpisodeNumber, 3, 4), Group(EpisodeTitle, 7, 8)])

  const FilePatterns := [SeasonCrossEpisode, EpisodeFirst, SxxEyy]

  /** Every group of every pattern spans atoms of its pattern. */
  lemma PatternsInside()
    ensures AllGroupsInside(DirectoryPatterns) && AllGroupsInside(FilePatterns)
  {
  }

  lemma DirectoryWellFormed()
    ensures WellFormed(LeadingNumber) && WellFormed(TrailingNumber)
    ensures WellFormed(Specials) && WellFormed(KeywordNumber)
  {
  }

  lemma EpisodeFirstWellFormed()
    ensures WellFormed(EpisodeFirst)
  {
  }

  lemma EpisodeFirstParts()
    ensures WellFormed(EpisodeFirst) && EpisodeFirst.atoms == EpisodeAtoms && EpisodeFirst.toEnd
    ensures EpisodeFirst.groups == [Group(EpisodeNumber, 0, 1), Group(EpisodeTitle, 3, 4)]
  {
  }

  lemma SeasonCrossEpisodeWellFormed()
    ensures WellFormed(SeasonCrossEpisode)
  {
  }

  lemma SeasonCrossEpisodeParts()
    ensures WellFormed(SeasonCrossEpisode) && |SeasonCrossEpisode.atoms| == 6 && SeasonCrossEpisode.toEnd
    ensures SeasonCrossEpisode.groups
      == [Group(SeasonNumber, 0, 1), Group(EpisodeNumber, 2, 3), Group(EpisodeTitle, 5, 6)]
  {
  }

  lemma SxxEyyWellFormed()
    ensures WellFormed(SxxEyy)
  {
  }

  /** The keys of `groupdict()` for each pattern. */
  lemma GroupNames()
    ensures Names(LeadingNumber.groups) == {SeasonNumber}
    ensures Names(TrailingNumber.groups) == {SeasonNumber}
    ensures Names(Specials.groups) == {SeasonSpecials}
    ensures Names(KeywordNumber.groups) == {SeasonNumber}
    ensures Names(SeasonCrossEpisode.groups) == {SeasonNumber, EpisodeNumber, EpisodeTitle}
    ensures Names(EpisodeFirst.groups) == {EpisodeNumber, EpisodeTitle}
    ensures Names(SxxEyy.groups) == {SeasonNumber, EpisodeNumber, EpisodeTitle}
  {
    var gs := SeasonCrossEpisode.groups;
    assert Names(gs[2..]) == {EpisodeTitle};
    assert Names(gs[1..]) == {EpisodeNumber, EpisodeTitle};
    gs := SxxEyy.groups;
    assert Names(gs[2..]) == {EpisodeTitle};
    assert Names(gs[1..]) == {EpisodeNumber, EpisodeTitle};
    gs := EpisodeFirst.groups;
    assert Names(gs[1..]) == {EpisodeTitle};
  }

  // ---- What each directory pattern matches ----

  /** `^(\d+)` matches exactly the names that start with a digit and captures
      the whole leading run of digits. */
  lemma LeadingNumberMatch(s: string)
    ensures s != [] && IsDigit(s[0]) ==>
      Match(LeadingNumber, s).Some? && Match(LeadingNumber, s).value[SeasonNumber] == s[..Run(Digit, s, 0)]
    ensures s == [] || !IsDigit(s[0]) ==> Match(LeadingNumber, s).None?
  {
    var A := LeadingNumber.atoms;
    if s != [] && IsDigit(s[0]) {
      var n := Run(Digit, s, 0);
      assert A[1..] == [];
      MatchAtTakes(A, s, 0, false, n, []);
      var c := [n];
      assert [n] + [] == c;
      assert Offset(c, 1) == n;
      MatchCaptures(LeadingNumber, s, c);
      assert LeadingNumber.groups[0].name == SeasonNumber;
    } else {
      MatchAtNeedsFirst(A, s, 0, false);
    }
  }

  /** `\W+\s+(\d+)$` from position 0: a run of non-word characters ending in
      whitespace up to `n`, then digits up to the end; the digits are captured. */
  lemma TrailingNumberMatch(s: string, n: nat)
    requires 2 <= n < |s| && (forall j :: 0 <= j < n ==> !IsWord(s[j])) && IsSpace(s[n - 1])
    requires forall j :: n <= j < |s| ==> IsDigit(s[j])
    ensures Match(TrailingNumber, s).Some?
    ensures SeasonNumber in Match(TrailingNumber, s).value
    ensures Match(TrailingNumber, s).value[SeasonNumber] == s[n..]
  {
    TrailingNumberCounts(s, n);
    var c := [n - 1, 1, |s| - n];
    DirectoryWellFormed();
    assert Offset(c, 1) == n - 1;
    assert Offset(c, 2) == n;
    assert Offset(c, 3) == |s|;
    MatchGroup(TrailingNumber, s, c, 0, n, |s|);
  }

  lemma TrailingNumberCounts(s: string, n: nat)
    requires 2 <= n < |s| && (forall j :: 0 <= j < n ==> !IsWord(s[j])) && IsSpace(s[n - 1])
    requires forall j :: n <= j < |s| ==> IsDigit(s[j])
    ensures MatchAt(TrailingNumber.atoms, s, 0, true) == Some([n - 1, 1, |s| - n])
  {
    var A := TrailingNumber.atoms;
    TrailingSpaceDigits(s, n);
    GreedyUnbounded(A[0], s, 0, n);
    MatchAtNeedsFirst(A[1..], s, n, true);
    MatchAtGivesBackOne(A, s, 0, true, n, [1, |s| - n]);
    assert [n - 1] + [1, |s| - n] == [n - 1, 1, |s| - n];
  }

  /** `\s+(\d+)$` from `n - 1`: the whitespace character, then the digits. */
  lemma TrailingSpaceDigits(s: string, n: nat)
    requires 1 <= n < |s| && IsSpace(s[n - 1])
    requires forall j :: n <= j < |s| ==> IsDigit(s[j])
    ensures MatchAt(TrailingNumber.atoms[1..], s, n - 1, true) == Some([1, |s| - n])
  {
    var A := TrailingNumber.atoms[1..];
    TrailingDigits(s, n);
    GreedyUnbounded(A[0], s, n - 1, 1);
    assert A[1..] == TrailingNumber.atoms[2..];
    MatchAtTakes(A, s, n - 1, true, 1, [|s| - n]);
    assert [1] + [|s| - n] == [1, |s| - n];
  }

  /** `(\d+)$` from `n`: the digits up to the end. */
  lemma TrailingDigits(s: string, n: nat)
    requires n < |s| && forall j :: n <= j < |s| ==> IsDigit(s[j])
    ensures MatchAt(TrailingNumber.atoms[2..], s, n, true) == Some([|s| - n])
  {
    var A := TrailingNumber.atoms[2..];
    GreedyUnbounded(A[0], s, n, |s| - n);
    assert A[1..] == [];
    MatchAtTakes(A, s, n, true, |s| - n, []);
    assert [|s| - n] + [] == [|s| - n];
  }

  /** `\W+...` cannot match a name that starts with a word character. */
  lemma TrailingNumberNeedsNonWord(s: string)
    requires s == [] || IsWord(s[0])
    ensures Match(TrailingNumber, s).None?
  {
    MatchAtNeedsFirst(TrailingNumber.atoms, s, 0, true);
  }

  function Ones(n: nat): (c: seq<nat>)
    ensures |c| == n && forall i :: 0 <= i < n ==> c[i] == 1
  {
    seq(n, i => 1)
  }

  /** `s` starts with `w`, ignoring ASCII case. */
  predicate StartsWithIgnoringCase(s: string, w: string) {
    |w| <= |s| && LowerString(s[..|w|]) == LowerString(w)
  }

  lemma StartsWithFirst(s: string, w: string)
    requires s != [] && w != []
    ensures StartsWithIgnoringCase(s, w) <==>
      Lower(s[0]) == Lower(w[0]) && StartsWithIgnoringCase(s[1..], w[1..])
  {
    if |w| <= |s| {
      var l, r := LowerString(s[..|w|]), LowerString(w);
      var l', r' := LowerString(s[1..][..|w| - 1]), LowerString(w[1..]);
      assert l' == l[1..] && r' == r[1..];
      assert l == [l[0]] + l' && r == [r[0]] + r';
      assert l[0] == Lower(s[0]) && r[0] == Lower(w[0]);
    }
  }

  /** A literal word matches where the text spells it, ignoring case. */
  lemma {:induction false} LiteralMatch(w: string, s: string, pos: nat)
    requires pos <= |s|
    ensures MatchAt(Literal(w), s, pos, false) ==
      if StartsWithIgnoringCase(s[pos..], w) then Some(Ones(|w|)) else None
    decreases |w|
  {
    var A := Literal(w);
    if w == [] {
      assert StartsWithIgnoringCase(s[pos..], w);
      assert Ones(0) == [];
    } else if pos == |s| {
      MatchAtNeedsFirst(A, s, pos, false);
    } else {
      assert A[1..] == Literal(w[1..]);
      assert LowerString([w[0]]) == [Lower(w[0])];
      GreedyAtMostOne(A[0], s, pos);
      StartsWithFirst(s[pos..], w);
      assert s[pos..][1..] == s[pos + 1..];
      if Lower(s[pos]) == Lower(w[0]) {
        LiteralMatch(w[1..], s, pos + 1);
        if StartsWithIgnoringCase(s[pos + 1..], w[1..]) {
          MatchAtTakes(A, s, pos, false, 1, Ones(|w| - 1));
          assert [1] + Ones(|w| - 1) == Ones(|w|);
        } else {
          TryCountGivesBack(A, s, pos, false, 1);
        }
      } else {
        MatchAtNeedsFirst(A, s, pos, false);
      }
    }
  }

  /** `^(Specials)` matches exactly the names that start with that word in any case. */
  lemma SpecialsMatch(s: string)
    ensures Match(Specials, s).Some? <==> StartsWithIgnoringCase(s, "Specials")
  {
    LiteralMatch("Specials", s, 0);
    assert s[0..] == s;
  }

  /** `^[Season|Lesson|Chapter|Part]\W+...` needs a non-word second character. */
  lemma KeywordNumberNeedsSeparator(s: string)
    requires |s| < 2 || IsWord(s[1])
    ensures Match(KeywordNumber, s).None?
  {
    var A := KeywordNumber.atoms;
    GreedyAtMostOne(A[0], s, 0);
    if Greedy(A[0], s, 0) == 1 {
      MatchAtNeedsFirst(A[1..], s, 1, false);
      TryCountGivesBack(A, s, 0, false, 1);
    }
  }

  // ---- What the file patterns match ----

  /** No line break from `pos` on: `.` and `$` then behave as "any character"
      and "end of text". */
  predicate OneLine(s: string, pos: nat) {
    forall j :: pos <= j < |s| ==> s[j] != '\n'
  }

  /** The episode title the file patterns capture from `pos`: everything after
      the leading non-word characters, or the last character when only
      non-word characters are left (`.+` must take at least one). */
  function Title(s: string, pos: nat): (t: string)
    requires pos < |s|
    ensures t != [] && |t| <= |s| - pos
  {
    s[TitleStart(s, pos)..|s|]
  }

  /** Where the title starts. */
  function TitleStart(s: string, pos: nat): (i: nat)
    requires pos < |s|
    ensures pos <= i < |s|
  {
    var m := Run(NonWord, s, pos);
    if pos + m < |s| then pos + m else |s| - 1
  }

  /** Counts `c` of the title tail from `pos` run to the end of the text and
      leave the title group exactly `Title(s, pos)`. */
  predicate TitleSplit(s: string, pos: nat, c: seq<nat>)
    requires pos < |s|
  {
    |c| == 3 && pos + c[0] + c[1] + c[2] == |s| && c[2] == |s| - TitleStart(s, pos)
  }

  lemma TitleAtEnd(s: string)
    ensures MatchAt(TitleAtoms, s, |s|, true).None?
  {
    var A := TitleAtoms;
    MatchAtNeedsFirst(A[2..], s, |s|, true);
    assert A[1..][1..] == A[2..];
    TryCountFails(A[1..], s, |s|, true, 0);
    TryCountFails(A, s, |s|, true, 0);
  }

  /** `\W*\s*(.+)$` at `pos` on one line: it fails only at the end, and
      captures `Title(s, pos)`. */
  lemma TitleMatch(s: string, pos: nat)
    requires pos < |s| && OneLine(s, pos)
    ensures MatchAt(TitleAtoms, s, pos, true).Some?
    ensures TitleSplit(s, pos, MatchAt(TitleAtoms, s, pos, true).value)
  {
    if pos + Run(NonWord, s, pos) < |s| {
      TitleMatchWord(s, pos);
    } else {
      TitleMatchNoWord(s, pos);
    }
  }

  lemma TitleMatchWord(s: string, pos: nat)
    requires pos < |s| && OneLine(s, pos) && pos + Run(NonWord, s, pos) < |s|
    ensures var m := Run(NonWord, s, pos);
      MatchAt(TitleAtoms, s, pos, true) == Some([m, 0, |s| - pos - m])
    ensures TitleSplit(s, pos, MatchAt(TitleAtoms, s, pos, true).value)
  {
    var A := TitleAtoms;
    assert A[1..][1..] == A[2..] && A[2..][1..] == [];
    var m := Run(NonWord, s, pos);
    var L := |s| - pos - m;
    GreedyUnbounded(A[2], s, pos + m, L);
    MatchAtTakes(A[2..], s, pos + m, true, L, []);
    GreedyUnbounded(A[1], s, pos + m, 0);
    assert [L] + [] == [L] && [0] + [L] == [0, L];
    MatchAtTakes(A[1..], s, pos + m, true, 0, [L]);
    MatchAtTakes(A, s, pos, true, m, [0, L]);
    assert [m] + [0, L] == [m, 0, L];
  }

  lemma TitleMatchNoWord(s: string, pos: nat)
    requires pos < |s| && OneLine(s, pos) && pos + Run(NonWord, s, pos) == |s|
    ensures var m := Run(NonWord, s, pos);
      MatchAt(TitleAtoms, s, pos, true) == Some([m - 1, 0, 1])
    ensures TitleSplit(s, pos, MatchAt(TitleAtoms, s, pos, true).value)
  {
    var A := TitleAtoms;
    var m := Run(NonWord, s, pos);
    TitleAtEnd(s);
    TitleLastChar(s);
    MatchAtGivesBackOne(A, s, pos, true, m, [0, 1]);
    assert [m - 1] + [0, 1] == [m - 1, 0, 1];
  }

  /** `\s*(.+)$` on the last character alone: `\s*` must leave it to `.+`. */
  lemma TitleLastChar(s: string)
    requires s != [] && s[|s| - 1] != '\n'
    ensures MatchAt(TitleAtoms[1..], s, |s| - 1, true) == Some([0, 1])
  {
    var A := TitleAtoms[1..];
    var l := |s| - 1;
    assert A[1..] == TitleAtoms[2..];
    TitleLastAny(s);
    if Greedy(A[0], s, l) == 1 {
      TitleAnyAtEnd(s);
      TryCountGivesBack(A, s, l, true, 1);
    }
    TryCountTakes(A, s, l, true, 0, [1]);
    assert [0] + [1] == [0, 1];
  }

  lemma TitleLastAny(s: string)
    requires s != [] && s[|s| - 1] != '\n'
    ensures MatchAt(TitleAtoms[2..], s, |s| - 1, true) == Some([1])
  {
    var A := TitleAtoms[2..];
    assert A[1..] == [];
    GreedyUnbounded(A[0], s, |s| - 1, 1);
    MatchAtTakes(A, s, |s| - 1, true, 1, []);
    assert [1] + [] == [1];
  }

  lemma TitleAnyAtEnd(s: string)
    ensures MatchAt(TitleAtoms[2..], s, |s|, true).None?
  {
    MatchAtNeedsFirst(TitleAtoms[2..], s, |s|, true);
  }

  /** How many digits from `q` the episode group keeps: the whole run, or all
      but its last digit when the text ends with the run. */
  function EpisodeLength(s: string, q: nat): (k: int)
    requires q <= |s|
    ensures k < 0 || q + k < |s|
    ensures forall j :: q <= j < q + k ==> IsDigit(s[j])
  {
    var e := Run(Digit, s, q);
    if q + e < |s| then e else e - 1
  }

  /** The episode atoms matched from `q` with counts `c`: the episode group
      keeps `k` digits and the title tail settles after them. */
  predicate EpisodeSplit(s: string, q: nat, k: nat, c: seq<nat>)
    requires q + k < |s|
  {
    |c| == 4 && c[0] == k && q + k + c[1] + c[2] + c[3] == |s| && c[3] == |s| - TitleStart(s, q + k)
  }

  /** `(\d{2,})\W*\s*(.+)$` at `q` on one line. */
  lemma EpisodeMatch(s: string, q: nat)
    requires q <= |s| && OneLine(s, q)
    ensures MatchAt(EpisodeAtoms, s, q, true).Some? <==> EpisodeLength(s, q) >= 2
    ensures MatchAt(EpisodeAtoms, s, q, true).Some? ==>
      EpisodeSplit(s, q, EpisodeLength(s, q), MatchAt(EpisodeAtoms, s, q, true).value)
  {
    var A := EpisodeAtoms;
    assert A[1..] == TitleAtoms;
    var e := Run(Digit, s, q);
    if e >= 2 {
      if q + e < |s| {
        EpisodeTakes(s, q, e);
      } else {
        TitleAtEnd(s);
        TryCountGivesBack(A, s, q, true, e);
        if e >= 3 {
          EpisodeTakes(s, q, e - 1);
        }
      }
    }
  }

  lemma EpisodeTakes(s: string, q: nat, k: nat)
    requires q + k < |s| && OneLine(s, q) && 2 <= k <= Run(Digit, s, q)
    ensures TryCount(EpisodeAtoms, s, q, true, k).Some?
    ensures EpisodeSplit(s, q, k, TryCount(EpisodeAtoms, s, q, true, k).value)
  {
    var A := EpisodeAtoms;
    assert A[1..] == TitleAtoms;
    TitleMatch(s, q + k);
    var t := MatchAt(TitleAtoms, s, q + k, true).value;
    TryCountTakes(A, s, q, true, k, t);
    var c := [k] + t;
    assert c[1] == t[0] && c[2] == t[1] && c[3] == t[2];
  }

  predicate IsSeparator(c: char) {
    c == '-' || c == '.' || c == 'x' || c == 'X'
  }

  lemma SeparatorClass(c: char)
    ensures In(OneOf("-.x"), c) <==> IsSeparator(c)
  {
    assert LowerString("-.x") == "-.x";
  }

  /** `^(\d+)[-\.x](\d{2,})\W*\s*(.+)$` on one line, when the text starts
      with a run of `n` digits, a separator and then `k` >= 2 episode digits:
      the season is the digit run, the episode the `k` digits, and the title
      the rest after its leading non-word characters. */
  lemma SeasonCrossEpisodeGroups(s: string, n: nat, k: nat)
    requires OneLine(s, 0) && n == Run(Digit, s, 0)
    requires 1 <= n < |s| && IsSeparator(s[n]) && k == EpisodeLength(s, n + 1) >= 2
    ensures n + 1 + k < |s|
    ensures Match(SeasonCrossEpisode, s).Some?
    ensures SeasonNumber in Match(SeasonCrossEpisode, s).value
    ensures Match(SeasonCrossEpisode, s).value[SeasonNumber] == s[..n]
    ensures EpisodeNumber in Match(SeasonCrossEpisode, s).value
    ensures Match(SeasonCrossEpisode, s).value[EpisodeNumber] == s[n + 1..n + 1 + k]
    ensures EpisodeTitle in Match(SeasonCrossEpisode, s).value
    ensures Match(SeasonCrossEpisode, s).value[EpisodeTitle] == Title(s, n + 1 + k)
  {
    var i := TitleStart(s, n + 1 + k);
    var c := SeasonCrossEpisodeCounts(s, n, k, i);
    SeasonCrossEpisodeCaptures(s, c, n, k, i);
  }

  /** The groups read off the counts `c` of a match. */
  lemma SeasonCrossEpisodeCaptures(s: string, c: seq<nat>, n: nat, k: nat, i: nat)
    requires MatchAt(SeasonCrossEpisode.atoms, s, 0, true) == Some(c)
    requires |c| == 6 && c[0] == n && c[1] == 1 && c[2] == k
    requires n + 1 + k + c[3] + c[4] + c[5] == |s| && c[5] == |s| - i
    ensures Match(SeasonCrossEpisode, s).Some?
    ensures SeasonNumber in Match(SeasonCrossEpisode, s).value
    ensures Match(SeasonCrossEpisode, s).value[SeasonNumber] == s[..n]
    ensures EpisodeNumber in Match(SeasonCrossEpisode, s).value
    ensures Match(SeasonCrossEpisode, s).value[EpisodeNumber] == s[n + 1..n + 1 + k]
    ensures EpisodeTitle in Match(SeasonCrossEpisode, s).value
    ensures Match(SeasonCrossEpisode, s).value[EpisodeTitle] == s[i..|s|]
  {
    SeasonCrossEpisodeSeason(s, c, n);
    SeasonCrossEpisodeEpisode(s, c, n, k);
    SeasonCrossEpisodeTitle(s, c, i);
  }

  /** The counts of a `SeasonCrossEpisode` match: the `n` season digits, the
      separator, the `k` episode digits, and a title tail that ends with the
      `|t|` characters of the title. */
  lemma SeasonCrossEpisodeCounts(s: string, n: nat, k: nat, i: nat) returns (c: seq<nat>)
    requires OneLine(s, 0) && n == Run(Digit, s, 0)
    requires 1 <= n < |s| && IsSeparator(s[n]) && k == EpisodeLength(s, n + 1) >= 2
    requires i == TitleStart(s, n + 1 + k)
    ensures MatchAt(SeasonCrossEpisode.atoms, s, 0, true) == Some(c)
    ensures |c| == 6 && c[0] == n && c[1] == 1 && c[2] == k && c[5] == |s| - i
    ensures n + 1 + k + c[3] + c[4] + c[5] == |s|
  {
    var r := SeparatorCounts(s, n, k, i);
    SeasonFirst(s, n, r);
    c := [n] + r;
    CountsShape(n, k, |s| - i, |s|, r, c);
  }

  /** The counts from the separator on: one separator, `k` episode digits and
      a title tail that ends with the title starting at `i`. */
  lemma SeparatorCounts(s: string, n: nat, k: nat, i: nat) returns (r: seq<nat>)
    requires OneLine(s, 0) && n < |s| && IsSeparator(s[n])
    requires k == EpisodeLength(s, n + 1) >= 2 && i == TitleStart(s, n + 1 + k)
    ensures MatchAt(SeasonCrossEpisode.atoms[1..], s, n, true) == Some(r)
    ensures |r| == 5 && r[0] == 1 && r[1] == k && r[4] == |s| - i
    ensures n + 1 + k + r[2] + r[3] + r[4] == |s|
  {
    SeparatorStep(s, n);
    EpisodeMatch(s, n + 1);
    var y := MatchAt(EpisodeAtoms, s, n + 1, true).value;
    r := [1] + y;
    SeparatorShape(n, k, |s| - i, |s|, y, r);
  }

  lemma SeparatorShape(n: nat, k: nat, m: nat, len: nat, y: seq<nat>, r: seq<nat>)
    requires |y| == 4 && y[0] == k && n + 1 + k + y[1] + y[2] + y[3] == len && y[3] == m
    requires r == [1] + y
    ensures |r| == 5 && r[0] == 1 && r[1] == k && r[4] == m
    ensures n + 1 + k + r[2] + r[3] + r[4] == len
  {
    assert r[1] == y[0] && r[2] == y[1] && r[3] == y[2] && r[4] == y[3];
  }

  lemma CountsShape(n: nat, k: nat, m: nat, len: nat, r: seq<nat>, c: seq<nat>)
    requires |r| == 5 && r[0] == 1 && r[1] == k && r[4] == m
    requires n + 1 + k + r[2] + r[3] + r[4] == len
    requires c == [n] + r
    ensures |c| == 6 && c[0] == n && c[1] == 1 && c[2] == k && c[5] == m
    ensures n + 1 + k + c[3] + c[4] + c[5] == len
  {
    assert c[1] == r[0] && c[2] == r[1] && c[3] == r[2] && c[4] == r[3] && c[5] == r[4];
  }

  /** `\d+` takes the whole leading digit run when the rest matches after it. */
  lemma SeasonFirst(s: string, n: nat, r: seq<nat>)
    requires n == Run(Digit, s, 0) >= 1
    requires MatchAt(SeasonCrossEpisode.atoms[1..], s, n, true) == Some(r)
    ensures MatchAt(SeasonCrossEpisode.atoms, s, 0, true) == Some([n] + r)
  {
    MatchAtTakes(SeasonCrossEpisode.atoms, s, 0, true, n, r);
  }

  /** Without a leading digit run, a separator after it and two episode
      digits after that, the pattern fails. */
  lemma SeasonCrossEpisodeFails(s: string, n: nat)
    requires OneLine(s, 0) && n == Run(Digit, s, 0)
    requires !(1 <= n < |s| && IsSeparator(s[n]) && EpisodeLength(s, n + 1) >= 2)
    ensures Match(SeasonCrossEpisode, s).None?
  {
    SeasonCrossEpisodeWellFormed();
    SeasonCrossEpisodeNone(s, n);
  }

  lemma SeasonCrossEpisodeNone(s: string, n: nat)
    requires OneLine(s, 0) && n == Run(Digit, s, 0)
    requires !(1 <= n < |s| && IsSeparator(s[n]) && EpisodeLength(s, n + 1) >= 2)
    ensures MatchAt(SeasonCrossEpisode.atoms, s, 0, true).None?
  {
    var A := SeasonCrossEpisode.atoms;
    if n == 0 {
      MatchAtNeedsFirst(A, s, 0, true);
    } else {
      DigitsAreNoSeparator(s, n);
      AfterDigitsFails(s, n);
      SeasonFirstFails(s, n);
    }
  }

  /** `\d+` cannot give back digits to rescue a rest that fails everywhere
      inside and after the digit run. */
  lemma SeasonFirstFails(s: string, n: nat)
    requires n == Run(Digit, s, 0) >= 1
    requires forall q :: 1 <= q < n ==> MatchAt(SeasonCrossEpisode.atoms[1..], s, q, true).None?
    requires MatchAt(SeasonCrossEpisode.atoms[1..], s, n, true).None?
    ensures MatchAt(SeasonCrossEpisode.atoms, s, 0, true).None?
  {
    TryCountFails(SeasonCrossEpisode.atoms, s, 0, true, n);
  }

  /** After the digit run, the rest fails without a separator followed by two
      episode digits. */
  lemma AfterDigitsFails(s: string, n: nat)
    requires OneLine(s, 0) && n == Run(Digit, s, 0) && 1 <= n
    requires !(1 <= n < |s| && IsSeparator(s[n]) && EpisodeLength(s, n + 1) >= 2)
    ensures MatchAt(SeasonCrossEpisode.atoms[1..], s, n, true).None?
  {
    if n == |s| || !IsSeparator(s[n]) {
      SeparatorFails(s, n);
    } else {
      SeparatorStep(s, n);
    }
  }

  /** Inside the leading digit run the separator cannot match. */
  lemma DigitsAreNoSeparator(s: string, n: nat)
    requires n == Run(Digit, s, 0)
    ensures forall q :: 1 <= q < n ==> MatchAt(SeasonCrossEpisode.atoms[1..], s, q, true).None?
  {
    forall q | 1 <= q < n
      ensures MatchAt(SeasonCrossEpisode.atoms[1..], s, q, true).None?
    {
      SeparatorFails(s, q);
    }
  }

  /** `[-\.x]` fails where no separator stands. */
  lemma SeparatorFails(s: string, q: nat)
    requires q <= |s| && (q == |s| || !IsSeparator(s[q]))
    ensures MatchAt(SeasonCrossEpisode.atoms[1..], s, q, true).None?
  {
    if q < |s| {
      SeparatorClass(s[q]);
    }
    MatchAtNeedsFirst(SeasonCrossEpisode.atoms[1..], s, q, true);
  }

  /** `[-\.x](\d{2,})\W*\s*(.+)$` at a separator: the separator, then the
      episode atoms. */
  lemma SeparatorStep(s: string, q: nat)
    requires q < |s| && IsSeparator(s[q]) && OneLine(s, q + 1)
    ensures MatchAt(SeasonCrossEpisode.atoms[1..], s, q, true).Some? <==> EpisodeLength(s, q + 1) >= 2
    ensures MatchAt(SeasonCrossEpisode.atoms[1..], s, q, true).Some? ==>
      && MatchAt(EpisodeAtoms, s, q + 1, true).Some?
      && MatchAt(SeasonCrossEpisode.atoms[1..], s, q, true).value ==
           [1] + MatchAt(EpisodeAtoms, s, q + 1, true).value
  {
    var A := SeasonCrossEpisode.atoms[1..];
    assert A[1..] == EpisodeAtoms;
    SeparatorClass(s[q]);
    GreedyAtMostOne(A[0], s, q);
    EpisodeMatch(s, q + 1);
    if EpisodeLength(s, q + 1) >= 2 {
      MatchAtTakes(A, s, q, true, 1, MatchAt(EpisodeAtoms, s, q + 1, true).value);
    } else {
      TryCountGivesBack(A, s, q, true, 1);
    }
  }

  /** Where each atom of a four- or six-atom match starts. */
  lemma Offsets4(y: seq<nat>)
    requires |y| == 4
    ensures Offset(y, 1) == y[0] && Offset(y, 2) == y[0] + y[1]
    ensures Offset(y, 3) == y[0] + y[1] + y[2] && Offset(y, 4) == y[0] + y[1] + y[2] + y[3]
  {
  }

  /** Where the last of four atoms starts and ends when they cover `n`. */
  lemma TitleOffsets(y: seq<nat>, n: nat)
    requires |y| == 4 && y[0] + y[1] + y[2] + y[3] == n
    ensures y[3] <= n && Offset(y, 3) == n - y[3] && Offset(y, 4) == n
  {
    Offsets4(y);
  }

  lemma Offsets6(c: seq<nat>)
    requires |c| == 6
    ensures Offset(c, 1) == c[0] && Offset(c, 2) == c[0] + c[1] && Offset(c, 3) == c[0] + c[1] + c[2]
    ensures Offset(c, 4) == c[0] + c[1] + c[2] + c[3]
    ensures Offset(c, 5) == c[0] + c[1] + c[2] + c[3] + c[4]
    ensures Offset(c, 6) == c[0] + c[1] + c[2] + c[3] + c[4] + c[5]
  {
    assert Offset(c, 1) == c[0];
    assert Offset(c, 2) == c[0] + c[1];
    assert Offset(c, 3) == c[0] + c[1] + c[2];
    assert Offset(c, 4) == c[0] + c[1] + c[2] + c[3];
    assert Offset(c, 5) == c[0] + c[1] + c[2] + c[3] + c[4];
  }

  /** The season group of a `SeasonCrossEpisode` match. */
  lemma SeasonCrossEpisodeSeason(s: string, c: seq<nat>, n: nat)
    requires MatchAt(SeasonCrossEpisode.atoms, s, 0, true) == Some(c)
    requires |c| == 6 && c[0] == n <= |s|
    ensures Match(SeasonCrossEpisode, s).Some?
    ensures SeasonNumber in Match(SeasonCrossEpisode, s).value
    ensures Match(SeasonCrossEpisode, s).value[SeasonNumber] == s[..n]
  {
    SeasonCrossEpisodeParts();
    FirstOfSix(SeasonCrossEpisode, s, c, SeasonNumber);
  }

  /** The episode group of a `SeasonCrossEpisode` match. */
  lemma SeasonCrossEpisodeEpisode(s: string, c: seq<nat>, n: nat, k: nat)
    requires MatchAt(SeasonCrossEpisode.atoms, s, 0, true) == Some(c)
    requires |c| == 6 && c[0] == n && c[1] == 1 && c[2] == k && n + 1 + k <= |s|
    ensures Match(SeasonCrossEpisode, s).Some?
    ensures EpisodeNumber in Match(SeasonCrossEpisode, s).value
    ensures Match(SeasonCrossEpisode, s).value[EpisodeNumber] == s[n + 1..n + 1 + k]
  {
    SeasonCrossEpisodeParts();
    ThirdOfSix(SeasonCrossEpisode, s, c, EpisodeNumber, n, k);
  }

  /** The title group of a `SeasonCrossEpisode` match: the last `c[5]`
      characters, from `i` on. */
  lemma SeasonCrossEpisodeTitle(s: string, c: seq<nat>, i: nat)
    requires MatchAt(SeasonCrossEpisode.atoms, s, 0, true) == Some(c)
    requires |c| == 6 && c[0] + c[1] + c[2] + c[3] + c[4] + c[5] == |s|
    requires c[5] == |s| - i
    ensures Match(SeasonCrossEpisode, s).Some?
    ensures EpisodeTitle in Match(SeasonCrossEpisode, s).value
    ensures Match(SeasonCrossEpisode, s).value[EpisodeTitle] == s[i..|s|]
  {
    SeasonCrossEpisodeParts();
    LastOfSix(SeasonCrossEpisode, s, c, EpisodeTitle, i);
  }

  /** The first, third and last atoms of a six-atom match, as groups. */
  lemma FirstOfSix(p: Pattern<GroupName>, s: string, c: seq<nat>, name: GroupName)
    requires WellFormed(p) && MatchAt(p.atoms, s, 0, p.toEnd) == Some(c) && |c| == 6
    requires |p.atoms| == 6 && |p.groups| >= 1 && p.groups[0] == Group(name, 0, 1)
    ensures c[0] <= |s|
    ensures Match(p, s).Some? && name in Match(p, s).value
    ensures Match(p, s).value[name] == s[..c[0]]
  {
    assert Offset(c, 0) == 0 && Offset(c, 1) == c[0];
    MatchNamed(p, s, c, 0, name, 0, c[0]);
  }

  lemma ThirdOfSix(p: Pattern<GroupName>, s: string, c: seq<nat>, name: GroupName, n: nat, k: nat)
    requires WellFormed(p) && MatchAt(p.atoms, s, 0, p.toEnd) == Some(c) && |c| == 6
    requires |p.atoms| == 6 && |p.groups| >= 2 && p.groups[1] == Group(name, 2, 3)
    requires c[0] == n && c[1] == 1 && c[2] == k
    ensures n + 1 + k <= |s|
    ensures Match(p, s).Some? && name in Match(p, s).value
    ensures Match(p, s).value[name] == s[n + 1..n + 1 + k]
  {
    Offsets6(c);
    MatchNamed(p, s, c, 1, name, n + 1, n + 1 + k);
  }

  lemma LastOfSix(p: Pattern<GroupName>, s: string, c: seq<nat>, name: GroupName, i: nat)
    requires WellFormed(p) && MatchAt(p.atoms, s, 0, p.toEnd) == Some(c) && |c| == 6
    requires c[0] + c[1] + c[2] + c[3] + c[4] + c[5] == |s| && c[5] == |s| - i
    requires |p.atoms| == 6 && |p.groups| >= 3 && p.groups[2] == Group(name, 5, 6)
    ensures i <= |s|
    ensures Match(p, s).Some? && name in Match(p, s).value
    ensures Match(p, s).value[name] == s[i..|s|]
  {
    Offsets6(c);
    MatchNamed(p, s, c, 2, name, i, |s|);
  }

  /** `^(\d{2,})\W*\s*(.+)$` on one line. */
  lemma EpisodeFirstMatch(s: string)
    requires OneLine(s, 0)
    ensures Match(EpisodeFirst, s).Some? <==> EpisodeLength(s, 0) >= 2
    ensures Match(EpisodeFirst, s).Some? ==>
      EpisodeLength(s, 0) >= 2 &&
      var k, d := EpisodeLength(s, 0), Match(EpisodeFirst, s).value;
      && SeasonNumber !in d
      && EpisodeNumber in d && d[EpisodeNumber] == s[..k]
      && EpisodeTitle in d && d[EpisodeTitle] == Title(s, k)
  {
    EpisodeMatch(s, 0);
    var k := EpisodeLength(s, 0);
    if k >= 2 {
      var y := MatchAt(EpisodeAtoms, s, 0, true).value;
      EpisodeFirstGroups(s, y);
    }
  }

  lemma EpisodeFirstGroups(s: string, y: seq<nat>)
    requires MatchAt(EpisodeAtoms, s, 0, true) == Some(y) && |y| == 4
    requires y[0] + y[1] + y[2] + y[3] == |s|
    ensures Match(EpisodeFirst, s).Some?
    ensures var d := Match(EpisodeFirst, s).value;
      && SeasonNumber !in d
      && EpisodeNumber in d && d[EpisodeNumber] == s[..y[0]]
      && EpisodeTitle in d && d[EpisodeTitle] == s[|s| - y[3]..]
  {
    EpisodeFirstParts();
    FirstOfFour(EpisodeFirst, s, y, EpisodeNumber);
    LastOfFour(EpisodeFirst, s, y, EpisodeTitle);
    EpisodeFirstNoSeason(s);
  }

  /** A pattern of four atoms whose first group is the first atom captures
      the characters that atom consumed. */
  lemma FirstOfFour(p: Pattern<GroupName>, s: string, y: seq<nat>, name: GroupName)
    requires WellFormed(p) && p.toEnd && MatchAt(p.atoms, s, 0, true) == Some(y) && |y| == 4
    requires |p.atoms| == 4 && |p.groups| >= 1 && p.groups[0] == Group(name, 0, 1)
    ensures y[0] <= |s|
    ensures Match(p, s).Some? && name in Match(p, s).value
    ensures Match(p, s).value[name] == s[..y[0]]
  {
    assert Offset(y, 0) == 0 && Offset(y, 1) == y[0];
    MatchNamed(p, s, y, 0, name, 0, y[0]);
  }

  /** A pattern of four atoms that covers the whole text and whose second
      group is the last atom captures the tail that atom consumed. */
  lemma LastOfFour(p: Pattern<GroupName>, s: string, y: seq<nat>, name: GroupName)
    requires WellFormed(p) && p.toEnd && MatchAt(p.atoms, s, 0, true) == Some(y) && |y| == 4
    requires y[0] + y[1] + y[2] + y[3] == |s|
    requires |p.atoms| == 4 && |p.groups| >= 2 && p.groups[1] == Group(name, 3, 4)
    ensures Match(p, s).Some? && name in Match(p, s).value
    ensures Match(p, s).value[name] == s[|s| - y[3]..]
  {
    TitleOffsets(y, |s|);
    MatchNamed(p, s, y, 1, name, |s| - y[3], |s|);
  }

  lemma EpisodeFirstNoSeason(s: string)
    requires Match(EpisodeFirst, s).Some?
    ensures SeasonNumber !in Match(EpisodeFirst, s).value
  {
    EpisodeFirstWellFormed();
    MatchKeys(EpisodeFirst, s);
    GroupNames();
  }

  // ---- What the third file pattern needs ----

  /** `s(\d{2,})e...` from position 0 needs an `s` or `S` first. */
  lemma SxxEyyNeedsS(s: string)
    requires s == [] || Lower(s[0]) != 's'
    ensures Match(SxxEyy, s).None?
  {
    assert LowerString("s") == "s";
    MatchAtNeedsFirst(SxxEyy.atoms, s, 0, true);
  }
}
