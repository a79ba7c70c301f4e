/**
 * `re.match` for the fragment of Python regular expressions the parsers use:
 * a sequence of single-character classes, each under a greedy quantifier
 * (`x`, `x?`, `x*`, `x+`, `x{m,}`), anchored at position 0 and optionally
 * ending in `$`.  CPython compiles each quantified class to one REPEAT_ONE
 * step: it takes as many characters as it can, then gives them back one at
 * a time until the rest of the pattern matches.  `MatchAt` does exactly that.
 *
 * The theorem `MatchAtGreedy` says what this search finds: a decomposition of
 * the input that the pattern accepts, whenever one exists, and among all of
 * them the one whose repetition counts are lexicographically greatest, which
 * is the leftmost-greedy match that Python reports.
 */
module Regex {
  import opened Wrappers
  import opened Text

  /** The character classes that occur in the patterns. */
  datatype CharClass =
    | Digit                 // \d
    | NonWord               // \W
    | Space                 // \s
    | AnyButNewline         // .
    | OneOf(chars: string)  // a literal character or a [...] set, under re.IGNORECASE

  predicate In(cls: CharClass, c: char) {
    match cls
    case Digit => IsDigit(c)
    case NonWord => !IsWord(c)
    case Space => IsSpace(c)
    case AnyButNewline => c != '\n'
    case OneOf(chars) => Lower(c) in LowerString(chars)
  }

  /** A class repeated between `min` and `max` times (no `max`: unbounded). */
  datatype Atom = Atom(cls: CharClass, min: nat, max: Option<nat>)

  /** A named group `(?P<name>...)` spanning atoms `first` up to, not including, `last`. */
  datatype Group<N> = Group(name: N, first: nat, last: nat)

  /** `toEnd` is a trailing `$`. */
  datatype Pattern<N> = Pattern(atoms: seq<Atom>, toEnd: bool, groups: seq<Group<N>>)

  /** Each group spans at least one atom of the pattern. */
  predicate GroupsInside<N>(p: Pattern<N>) {
    forall i :: 0 <= i < |p.groups| ==> p.groups[i].first < p.groups[i].last <= |p.atoms|
  }

  /** Groups lie inside the pattern and have distinct names, as `re.compile` demands. */
  predicate WellFormed<N(==)>(p: Pattern<N>) {
    && GroupsInside(p)
    && (forall i, j :: 0 <= i < j < |p.groups| ==> p.groups[i].name != p.groups[j].name)
  }

  predicate AllGroupsInside<N>(ps: seq<Pattern<N>>) {
    forall i :: 0 <= i < |ps| ==> GroupsInside(ps[i])
  }

  /** `$` without MULTILINE: the end of the text, or just before a final newline. */
  predicate AtEnd(s: string, pos: nat) {
    pos == |s| || (pos + 1 == |s| && s[pos] == '\n')
  }

  /** The longest run of characters of class `cls` starting at `pos`. */
  function Run(cls: CharClass, s: string, pos: nat): (k: nat)
    requires pos <= |s|
    ensures pos + k <= |s|
    ensures forall j :: pos <= j < pos + k ==> In(cls, s[j])
    ensures pos + k == |s| || !In(cls, s[pos + k])
    decreases |s| - pos
  {
    if pos < |s| && In(cls, s[pos]) then 1 + Run(cls, s, pos + 1) else 0
  }

  /** How many characters a greedy atom takes on its first try. */
  function Greedy(a: Atom, s: string, pos: nat): (k: nat)
    requires pos <= |s|
    ensures k <= Run(a.cls, s, pos)
    ensures a.max.Some? ==> k <= a.max.value
    ensures k == Run(a.cls, s, pos) || (a.max.Some? && k == a.max.value)
  {
    var n := Run(a.cls, s, pos);
    if a.max.Some? && a.max.value < n then a.max.value else n
  }

  /** Atom `a` may consume the `k` characters at `pos`. */
  ghost predicate Fits(a: Atom, s: string, pos: nat, k: nat) {
    && pos + k <= |s|
    && a.min <= k
    && (a.max.None? || k <= a.max.value)
    && forall j :: pos <= j < pos + k ==> In(a.cls, s[j])
  }

  /** The pattern `atoms` matches at `pos` with atom `i` consuming `c[i]` characters. */
  ghost predicate Accepts(atoms: seq<Atom>, s: string, pos: nat, toEnd: bool, c: seq<nat>)
    decreases |atoms|
  {
    && pos <= |s|
    && |c| == |atoms|
    && if atoms == [] then !toEnd || AtEnd(s, pos)
       else Fits(atoms[0], s, pos, c[0]) && Accepts(atoms[1..], s, pos + c[0], toEnd, c[1..])
  }

  /** Lexicographic order on count vectors of one length. */
  ghost predicate LexAtLeast(c: seq<nat>, d: seq<nat>)
    decreases |c|
  {
    && |c| == |d|
    && (c == [] || c[0] > d[0] || (c[0] == d[0] && LexAtLeast(c[1..], d[1..])))
  }

  /** The backtracking search of `re.match`: the counts of the first match found. */
  function MatchAt(atoms: seq<Atom>, s: string, pos: nat, toEnd: bool): (r: Option<seq<nat>>)
    requires pos <= |s|
    decreases |atoms|, 1, 0
  {
    if atoms == [] then
      if !toEnd || AtEnd(s, pos) then Some([]) else None
    else
      TryCount(atoms, s, pos, toEnd, Greedy(atoms[0], s, pos))
  }

  /** Try the first atom with `k` characters, then with fewer. */
  function TryCount(atoms: seq<Atom>, s: string, pos: nat, toEnd: bool, k: nat): (r: Option<seq<nat>>)
    requires atoms != [] && pos <= |s| && k <= Greedy(atoms[0], s, pos)
    decreases |atoms|, 0, k
  {
    if k < atoms[0].min then None
    else
      match MatchAt(atoms[1..], s, pos + k, toEnd)
      case Some(rest) =>
        assert ([k] + rest)[1..] == rest;
        Some([k] + rest)
      case None =>
        if k == 0 then None else TryCount(atoms, s, pos, toEnd, k - 1)
  }

  /** The search is sound: what it returns is accepted. */
  lemma {:induction false} MatchAtSound(atoms: seq<Atom>, s: string, pos: nat, toEnd: bool)
    requires pos <= |s|
    ensures MatchAt(atoms, s, pos, toEnd).Some? ==>
      Accepts(atoms, s, pos, toEnd, MatchAt(atoms, s, pos, toEnd).value)
    decreases |atoms|, 1, 0
  {
    if atoms != [] {
      TryCountSound(atoms, s, pos, toEnd, Greedy(atoms[0], s, pos));
    }
  }

  lemma {:induction false} TryCountSound(atoms: seq<Atom>, s: string, pos: nat, toEnd: bool, k: nat)
    requires atoms != [] && pos <= |s| && k <= Greedy(atoms[0], s, pos)
    ensures TryCount(atoms, s, pos, toEnd, k).Some? ==>
      Accepts(atoms, s, pos, toEnd, TryCount(atoms, s, pos, toEnd, k).value)
    decreases |atoms|, 0, k
  {
    if k >= atoms[0].min {
      MatchAtSound(atoms[1..], s, pos + k, toEnd);
      if MatchAt(atoms[1..], s, pos + k, toEnd).None? && k > 0 {
        TryCountSound(atoms, s, pos, toEnd, k - 1);
      }
    }
  }

  /** No atom can take more than its greedy count. */
  lemma FitsWithinGreedy(a: Atom, s: string, pos: nat, k: nat)
    requires pos <= |s| && Fits(a, s, pos, k)
    ensures k <= Greedy(a, s, pos)
  {
  }

  /** The search is complete and greedy: it fails only when no decomposition
      is accepted, and what it returns is lexicographically greatest. */
  lemma {:induction false} MatchAtGreedy(atoms: seq<Atom>, s: string, pos: nat, toEnd: bool)
    requires pos <= |s|
    ensures MatchAt(atoms, s, pos, toEnd).None? ==>
      forall d :: !Accepts(atoms, s, pos, toEnd, d)
    ensures MatchAt(atoms, s, pos, toEnd).Some? ==>
      forall d :: Accepts(atoms, s, pos, toEnd, d) ==> LexAtLeast(MatchAt(atoms, s, pos, toEnd).value, d)
    decreases |atoms|, 1, 0
  {
    if atoms == [] {
      forall d | Accepts(atoms, s, pos, toEnd, d)
        ensures d == []
      {
      }
    } else {
      var g := Greedy(atoms[0], s, pos);
      forall d | Accepts(atoms, s, pos, toEnd, d)
        ensures d[0] <= g
      {
        FitsWithinGreedy(atoms[0], s, pos, d[0]);
      }
      TryCountGreedy(atoms, s, pos, toEnd, g);
    }
  }

  lemma {:induction false} TryCountGreedy(atoms: seq<Atom>, s: string, pos: nat, toEnd: bool, k: nat)
    requires atoms != [] && pos <= |s| && k <= Greedy(atoms[0], s, pos)
    ensures TryCount(atoms, s, pos, toEnd, k).None? ==>
      forall d :: Accepts(atoms, s, pos, toEnd, d) ==> d[0] > k
    ensures TryCount(atoms, s, pos, toEnd, k).Some? ==>
      forall d :: Accepts(atoms, s, pos, toEnd, d) && d[0] <= k ==>
        LexAtLeast(TryCount(atoms, s, pos, toEnd, k).value, d)
    decreases |atoms|, 0, k
  {
    if k >= atoms[0].min {
      MatchAtGreedy(atoms[1..], s, pos + k, toEnd);
      match MatchAt(atoms[1..], s, pos + k, toEnd)
      case Some(rest) =>
        MatchAtSound(atoms[1..], s, pos + k, toEnd);
        forall d | Accepts(atoms, s, pos, toEnd, d) && d[0] <= k
          ensures LexAtLeast([k] + rest, d)
        {
          assert ([k] + rest)[1..] == rest;
          if d[0] == k {
            assert Accepts(atoms[1..], s, pos + k, toEnd, d[1..]);
          }
        }
      case None =>
        if k > 0 {
          TryCountGreedy(atoms, s, pos, toEnd, k - 1);
        }
        forall d | Accepts(atoms, s, pos, toEnd, d)
          ensures Accepts(atoms[1..], s, pos + d[0], toEnd, d[1..])
        {
        }
    }
  }

  // ---- Computing the search step by step ----

  /** A run that ends before a character outside the class, or at the end, is
      the longest run. */
  lemma {:induction false} RunIs(cls: CharClass, s: string, pos: nat, n: nat)
    requires pos + n <= |s|
    requires forall j :: pos <= j < pos + n ==> In(cls, s[j])
    requires pos + n == |s| || !In(cls, s[pos + n])
    ensures Run(cls, s, pos) == n
    decreases n
  {
    if n > 0 {
      RunIs(cls, s, pos + 1, n - 1);
    }
  }

  /** An unbounded atom takes the longest run. */
  lemma GreedyUnbounded(a: Atom, s: string, pos: nat, n: nat)
    requires a.max.None? && pos + n <= |s|
    requires forall j :: pos <= j < pos + n ==> In(a.cls, s[j])
    requires pos + n == |s| || !In(a.cls, s[pos + n])
    ensures Greedy(a, s, pos) == n
  {
    RunIs(a.cls, s, pos, n);
  }

  /** An atom with at most one repetition takes the next character if it can. */
  lemma GreedyAtMostOne(a: Atom, s: string, pos: nat)
    requires a.max == Some(1) && pos <= |s|
    ensures Greedy(a, s, pos) == if pos < |s| && In(a.cls, s[pos]) then 1 else 0
  {
  }

  /** The first try of an atom succeeds when the rest matches after it. */
  lemma MatchAtTakes(atoms: seq<Atom>, s: string, pos: nat, toEnd: bool, k: nat, rest: seq<nat>)
    requires atoms != [] && pos <= |s|
    requires Greedy(atoms[0], s, pos) == k && atoms[0].min <= k
    requires MatchAt(atoms[1..], s, pos + k, toEnd) == Some(rest)
    ensures MatchAt(atoms, s, pos, toEnd) == Some([k] + rest)
  {
  }

  /** When the rest fails after `k` characters, the atom gives one back. */
  lemma TryCountGivesBack(atoms: seq<Atom>, s: string, pos: nat, toEnd: bool, k: nat)
    requires atoms != [] && pos <= |s| && 0 < k <= Greedy(atoms[0], s, pos)
    requires MatchAt(atoms[1..], s, pos + k, toEnd).None?
    ensures TryCount(atoms, s, pos, toEnd, k) == TryCount(atoms, s, pos, toEnd, k - 1)
  {
  }

  /** The atom succeeds with `k` characters when the rest matches after them. */
  lemma TryCountTakes(atoms: seq<Atom>, s: string, pos: nat, toEnd: bool, k: nat, rest: seq<nat>)
    requires atoms != [] && pos <= |s| && atoms[0].min <= k <= Greedy(atoms[0], s, pos)
    requires MatchAt(atoms[1..], s, pos + k, toEnd) == Some(rest)
    ensures TryCount(atoms, s, pos, toEnd, k) == Some([k] + rest)
  {
  }

  /** The first atom gives back one character when the rest fails after its
      longest run and succeeds one character earlier. */
  lemma MatchAtGivesBackOne(atoms: seq<Atom>, s: string, pos: nat, toEnd: bool, n: nat, rest: seq<nat>)
    requires atoms != [] && pos <= |s| && Greedy(atoms[0], s, pos) == n && atoms[0].min < n
    requires MatchAt(atoms[1..], s, pos + n, toEnd).None?
    requires MatchAt(atoms[1..], s, pos + n - 1, toEnd) == Some(rest)
    ensures MatchAt(atoms, s, pos, toEnd) == Some([n - 1] + rest)
  {
    TryCountGivesBack(atoms, s, pos, toEnd, n);
    TryCountTakes(atoms, s, pos, toEnd, n - 1, rest);
  }

  /** The atom fails outright when the rest fails after every count it may take. */
  lemma {:induction false} TryCountFails(atoms: seq<Atom>, s: string, pos: nat, toEnd: bool, k: nat)
    requires atoms != [] && pos <= |s| && k <= Greedy(atoms[0], s, pos)
    requires forall q :: pos + atoms[0].min <= q <= pos + k ==> MatchAt(atoms[1..], s, q, toEnd).None?
    ensures TryCount(atoms, s, pos, toEnd, k).None?
    decreases k
  {
    if k >= atoms[0].min {
      assert MatchAt(atoms[1..], s, pos + k, toEnd).None?;
      if k > 0 {
        TryCountFails(atoms, s, pos, toEnd, k - 1);
      }
    }
  }

  /** An atom that must appear at least once fails where its class does not start. */
  lemma MatchAtNeedsFirst(atoms: seq<Atom>, s: string, pos: nat, toEnd: bool)
    requires atoms != [] && pos <= |s| && atoms[0].min >= 1
    requires pos == |s| || !In(atoms[0].cls, s[pos])
    ensures MatchAt(atoms, s, pos, toEnd).None?
  {
    RunIs(atoms[0].cls, s, pos, 0);
  }

  /** Where atom `i` starts, counted from the match start. */
  function Offset(c: seq<nat>, i: nat): nat
    requires i <= |c|
  {
    if i == 0 then 0 else Offset(c, i - 1) + c[i - 1]
  }

  lemma {:induction false} OffsetMonotone(c: seq<nat>, i: nat, j: nat)
    requires i <= j <= |c|
    ensures Offset(c, i) <= Offset(c, j)
    decreases j
  {
    if i < j {
      OffsetMonotone(c, i, j - 1);
    }
  }

  lemma {:induction false} OffsetTail(c: seq<nat>, i: nat)
    requires 1 <= i <= |c|
    ensures Offset(c, i) == c[0] + Offset(c[1..], i - 1)
  {
    if i > 1 {
      OffsetTail(c, i - 1);
    }
  }

  /** In an accepted decomposition, atom `i` consumes a run it fits. */
  lemma {:induction false} AcceptsAtom(atoms: seq<Atom>, s: string, pos: nat, toEnd: bool, c: seq<nat>, i: nat)
    requires Accepts(atoms, s, pos, toEnd, c) && i < |atoms|
    ensures Fits(atoms[i], s, pos + Offset(c, i), c[i])
    decreases i
  {
    if i > 0 {
      AcceptsAtom(atoms[1..], s, pos + c[0], toEnd, c[1..], i - 1);
      OffsetTail(c, i);
    }
  }

  /** An accepted decomposition stays inside the text. */
  lemma {:induction false} AcceptsWithin(atoms: seq<Atom>, s: string, pos: nat, toEnd: bool, c: seq<nat>)
    requires Accepts(atoms, s, pos, toEnd, c)
    ensures pos + Offset(c, |c|) <= |s|
    decreases |atoms|
  {
    if atoms != [] {
      AcceptsWithin(atoms[1..], s, pos + c[0], toEnd, c[1..]);
      OffsetTail(c, |c|);
    }
  }

  /** The text a group captured. */
  function Capture<N>(s: string, c: seq<nat>, g: Group<N>): string
    requires g.first <= g.last <= |c| && Offset(c, |c|) <= |s|
  {
    OffsetMonotone(c, g.first, g.last);
    OffsetMonotone(c, g.last, |c|);
    s[Offset(c, g.first)..Offset(c, g.last)]
  }

  lemma CaptureIs<N>(s: string, c: seq<nat>, g: Group<N>, i: nat, j: nat)
    requires g.first <= g.last <= |c| && Offset(c, |c|) <= |s|
    requires Offset(c, g.first) == i && Offset(c, g.last) == j
    ensures i <= j <= |s| && Capture(s, c, g) == s[i..j]
  {
    OffsetMonotone(c, g.first, g.last);
    OffsetMonotone(c, g.last, |c|);
  }

  /** The names of the groups. */
  function Names<N>(gs: seq<Group<N>>): set<N> {
    if gs == [] then {} else {gs[0].name} + Names(gs[1..])
  }

  /** `m.groupdict()`: every group name mapped to the text it captured. */
  function GroupDict<N(==)>(gs: seq<Group<N>>, s: string, c: seq<nat>): map<N, string>
    requires forall i :: 0 <= i < |gs| ==> gs[i].first <= gs[i].last <= |c|
    requires Offset(c, |c|) <= |s|
  {
    if gs == [] then map[] else GroupDict(gs[1..], s, c)[gs[0].name := Capture(s, c, gs[0])]
  }

  /** The dictionary has one key per group name. */
  lemma {:induction false} GroupDictKeys<N>(gs: seq<Group<N>>, s: string, c: seq<nat>)
    requires forall i :: 0 <= i < |gs| ==> gs[i].first <= gs[i].last <= |c|
    requires Offset(c, |c|) <= |s|
    ensures GroupDict(gs, s, c).Keys == Names(gs)
  {
    if gs != [] {
      GroupDictKeys(gs[1..], s, c);
    }
  }

  /** With distinct names, each group's name maps to its own capture. */
  lemma {:induction false} GroupDictLookup<N>(gs: seq<Group<N>>, s: string, c: seq<nat>, i: nat)
    requires forall i :: 0 <= i < |gs| ==> gs[i].first <= gs[i].last <= |c|
    requires Offset(c, |c|) <= |s|
    requires forall i, j :: 0 <= i < j < |gs| ==> gs[i].name != gs[j].name
    requires i < |gs|
    ensures gs[i].name in GroupDict(gs, s, c)
    ensures GroupDict(gs, s, c)[gs[i].name] == Capture(s, c, gs[i])
  {
    if i > 0 {
      assert gs[1..][i - 1] == gs[i] && gs[i].name != gs[0].name;
      GroupDictLookup(gs[1..], s, c, i - 1);
    }
  }

  /** `t` is a text atom `a` accepts on its own. */
  ghost predicate Spells(a: Atom, t: string) {
    Fits(a, t, 0, |t|)
  }

  /** A group that spans one atom captures a text that atom accepts. */
  lemma CaptureSpells<N>(p: Pattern<N>, s: string, c: seq<nat>, i: nat)
    requires GroupsInside(p) && Accepts(p.atoms, s, 0, p.toEnd, c)
    requires i < |p.groups| && p.groups[i].last == p.groups[i].first + 1
    ensures Offset(c, |c|) <= |s|
    ensures Spells(p.atoms[p.groups[i].first], Capture(s, c, p.groups[i]))
  {
    AcceptsWithin(p.atoms, s, 0, p.toEnd, c);
    var g := p.groups[i];
    AcceptsAtom(p.atoms, s, 0, p.toEnd, c, g.first);
    var t := Capture(s, c, g);
    var o := Offset(c, g.first);
    assert t == s[o..o + c[g.first]];
    assert forall j :: 0 <= j < |t| ==> t[j] == s[o + j];
  }

  /** `re.match(p, s)`: the group dictionary of the leftmost-greedy match, if any. */
  function Match<N(==)>(p: Pattern<N>, s: string): Option<map<N, string>>
    requires GroupsInside(p)
  {
    match MatchAt(p.atoms, s, 0, p.toEnd)
    case None => None
    case Some(c) =>
      MatchAtSound(p.atoms, s, 0, p.toEnd);
      AcceptsWithin(p.atoms, s, 0, p.toEnd, c);
      Some(GroupDict(p.groups, s, c))
  }

  /** A match has one entry per named group. */
  lemma MatchKeys<N>(p: Pattern<N>, s: string)
    requires GroupsInside(p) && Match(p, s).Some?
    ensures Match(p, s).value.Keys == Names(p.groups)
  {
    var c := MatchAt(p.atoms, s, 0, p.toEnd).value;
    MatchAtSound(p.atoms, s, 0, p.toEnd);
    AcceptsWithin(p.atoms, s, 0, p.toEnd, c);
    GroupDictKeys(p.groups, s, c);
  }

  /** `re.match` fails exactly when the pattern accepts no decomposition of the text. */
  lemma MatchFails<N>(p: Pattern<N>, s: string)
    requires GroupsInside(p)
    ensures Match(p, s).None? ==> forall c :: !Accepts(p.atoms, s, 0, p.toEnd, c)
    ensures Match(p, s).Some? ==> exists c :: Accepts(p.atoms, s, 0, p.toEnd, c)
  {
    MatchAtGreedy(p.atoms, s, 0, p.toEnd);
    MatchAtSound(p.atoms, s, 0, p.toEnd);
  }

  /** A group that spans a single atom captured text that atom accepts. */
  lemma MatchSpells<N>(p: Pattern<N>, s: string, i: nat)
    requires WellFormed(p) && Match(p, s).Some?
    requires i < |p.groups| && p.groups[i].last == p.groups[i].first + 1
    ensures p.groups[i].name in Match(p, s).value
    ensures Spells(p.atoms[p.groups[i].first], Match(p, s).value[p.groups[i].name])
  {
    var c := MatchAt(p.atoms, s, 0, p.toEnd).value;
    MatchAtSound(p.atoms, s, 0, p.toEnd);
    CaptureSpells(p, s, c, i);
    GroupDictLookup(p.groups, s, c, i);
  }

  /** What `Match` reports, given the counts the search found. */
  lemma MatchCaptures<N>(p: Pattern<N>, s: string, c: seq<nat>)
    requires WellFormed(p) && MatchAt(p.atoms, s, 0, p.toEnd) == Some(c) && |c| == |p.atoms|
    ensures Offset(c, |c|) <= |s|
    ensures Match(p, s).Some?
    ensures forall i :: 0 <= i < |p.groups| ==>
      p.groups[i].name in Match(p, s).value && Match(p, s).value[p.groups[i].name] == Capture(s, c, p.groups[i])
  {
    MatchAtSound(p.atoms, s, 0, p.toEnd);
    AcceptsWithin(p.atoms, s, 0, p.toEnd, c);
    forall i | 0 <= i < |p.groups|
      ensures p.groups[i].name in Match(p, s).value
      ensures Match(p, s).value[p.groups[i].name] == Capture(s, c, p.groups[i])
    {
      GroupDictLookup(p.groups, s, c, i);
    }
  }

  /** What one group of a match captured, given where its atoms start and end. */
  lemma MatchGroup<N>(p: Pattern<N>, s: string, c: seq<nat>, i: nat, from: nat, to: nat)
    requires WellFormed(p) && MatchAt(p.atoms, s, 0, p.toEnd) == Some(c) && i < |p.groups|
    requires |c| == |p.atoms|
    requires Offset(c, p.groups[i].first) == from && Offset(c, p.groups[i].last) == to
    ensures from <= to <= |s|
    ensures Match(p, s).Some? && p.groups[i].name in Match(p, s).value
    ensures Match(p, s).value[p.groups[i].name] == s[from..to]
  {
    MatchCaptures(p, s, c);
    CaptureIs(s, c, p.groups[i], from, to);
  }

  /** `MatchGroup` for the group named `name`. */
  lemma MatchNamed<N>(p: Pattern<N>, s: string, c: seq<nat>, i: nat, name: N, from: nat, to: nat)
    requires WellFormed(p) && MatchAt(p.atoms, s, 0, p.toEnd) == Some(c) && i < |p.groups|
    requires |c| == |p.atoms| && p.groups[i].name == name
    requires Offset(c, p.groups[i].first) == from && Offset(c, p.groups[i].last) == to
    ensures from <= to <= |s|
    ensures Match(p, s).Some? && name in Match(p, s).value
    ensures Match(p, s).value[name] == s[from..to]
  {
    MatchGroup(p, s, c, i, from, to);
  }

  /** What first-match-wins over a list of patterns found: the index of the
      pattern and its group dictionary. */
  datatype Hit<N> = Hit(index: nat, groups: map<N, string>)

  /** The loop `for regex in compiled: m = regex.match(s); if m: ...; break`,
      started at pattern `from`. */
  function FirstMatch<N(==)>(ps: seq<Pattern<N>>, s: string, from: nat): (r: Option<Hit<N>>)
    requires AllGroupsInside(ps)
    requires from <= |ps|
    ensures r.Some? ==> from <= r.value.index < |ps| && Match(ps[r.value.index], s) == Some(r.value.groups)
    ensures r.Some? ==> forall j :: from <= j < r.value.index ==> Match(ps[j], s).None?
    ensures r.None? <==> forall j :: from <= j < |ps| ==> Match(ps[j], s).None?
    decreases |ps| - from
  {
    if from == |ps| then None
    else
      match Match(ps[from], s)
      case Some(d) => Some(Hit(from, d))
      case None => FirstMatch(ps, s, from + 1)
  }

  /** The first pattern that matches is the one `FirstMatch` reports. */
  lemma FirstMatchIs<N>(ps: seq<Pattern<N>>, s: string, i: nat, d: map<N, string>)
    requires AllGroupsInside(ps) && i < |ps| && Match(ps[i], s) == Some(d)
    requires forall j :: 0 <= j < i ==> Match(ps[j], s).None?
    ensures FirstMatch(ps, s, 0) == Some(Hit(i, d))
  {
    var r := FirstMatch(ps, s, 0);
    assert r.Some?;
    assert !(r.value.index < i);
  }
}
