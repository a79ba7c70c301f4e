/**
 * `EpisodeNfo`: the element tree of a Kodi episode NFO, its indentation and
 * serialisation, the string its unique id is derived from, and the name and
 * path of the sidecar file.
 */
module Nfo {
  import opened Wrappers
  import opened Text
  import opened Entity

  /** An ElementTree element: tag, attributes in the order they were set,
      `text`, `tail` and children. */
  datatype Element = Element(tag: string, attrib: seq<(string, string)>, text: Option<string>,
                             tail: Option<string>, children: seq<Element>)

  const Declaration := "<?xml version=\"1.0\" encoding=\"UTF-8\" standalone=\"yes\" ?>"
  const Extension := ".nfo"

  /** `ET.SubElement(parent, tag)` with its text set: appended as the last child. */
  function SubElement(parent: Element, tag: string, text: Option<string>): Element {
    parent.(children := parent.children + [Element(tag, [], text, None, [])])
  }

  // ---- Paths and the unique id ----

  /** `os.path.join(a, b)` on POSIX paths. */
  function Join(a: string, b: string): string {
    if b != [] && b[0] == '/' then b
    else if a == [] || a[|a| - 1] == '/' then a + b
    else a + "/" + b
  }

  predicate Relative(b: string) {
    b == [] || b[0] != '/'
  }

  /** The joined path ends with the name joined. */
  lemma JoinEndsWith(a: string, b: string)
    ensures |b| <= |Join(a, b)| && Join(a, b)[|Join(a, b)| - |b|..] == b
  {
    var r := Join(a, b);
    assert r == b || r == (if a == [] || a[|a| - 1] == '/' then a else a + "/") + b;
  }

  /** Under one directory, distinct relative names give distinct paths. */
  lemma JoinSeparatesNames(a: string, b1: string, b2: string)
    requires Relative(b1) && Relative(b2) && Join(a, b1) == Join(a, b2)
    ensures b1 == b2
  {
    var p := if a == [] || a[|a| - 1] == '/' then a else a + "/";
    assert Join(a, b1) == p + b1 && Join(a, b2) == p + b2;
    assert b1 == (p + b1)[|p|..] && b2 == (p + b2)[|p|..];
  }

  /** A relative name under two directories that do not end with `/` gives
      two paths, unless the directories are the same. */
  lemma JoinSeparatesDirectories(a1: string, a2: string, b: string)
    requires Relative(b) && a1 != [] && a2 != [] && a1[|a1| - 1] != '/' && a2[|a2| - 1] != '/'
    requires Join(a1, b) == Join(a2, b)
    ensures a1 == a2
  {
    assert Join(a1, b) == a1 + "/" + b && Join(a2, b) == a2 + "/" + b;
    assert a1 == (a1 + "/" + b)[..|a1|] && a2 == (a2 + "/" + b)[..|a2|];
  }

  /** The string `generateId` hashes under each `uniqueIdSource` setting:
      the file name alone, the absolute path of the file, or (for `path` and
      any other setting) the path of the file joined to the directory. */
  function IdSource(setting: string, dir: Option<string>, file: string, abspath: string -> string): string
    requires setting != "filename" ==> dir.Some?
  {
    if setting == "filename" then file
    else if setting == "absolute" then abspath(Join(dir.value, file))
    else Join(dir.value, file)
  }

  /** Which source each setting selects, and what distinguishes two ids: the
      file name alone under `filename`, the directory and the name under the
      other settings. */
  lemma IdSourceCases(setting: string, dir: Option<string>, file: string, abspath: string -> string)
    requires setting != "filename" ==> dir.Some?
    ensures setting == "filename" ==> IdSource(setting, dir, file, abspath) == file
    ensures setting == "absolute" ==>
      IdSource(setting, dir, file, abspath) == abspath(IdSource("path", dir, file, abspath))
    ensures setting != "filename" && setting != "absolute" ==>
      IdSource(setting, dir, file, abspath) == IdSource("path", dir, file, abspath)
    ensures setting != "filename" && setting != "absolute" ==> Relative(file) ==>
      var r := IdSource(setting, dir, file, abspath); |file| <= |r| && r[|r| - |file|..] == file
  {
    if setting != "filename" && setting != "absolute" {
      JoinEndsWith(dir.value, file);
    }
  }

  // ---- The element tree ----

  /** `str(n if n is not None else '')`: the decimal numeral, or empty. */
  function NumberText(n: Option<int>): string {
    if n.Some? then IntToString(n.value) else ""
  }

  /** What a reader of the NFO makes of a number element's text. */
  function ReadNumber(text: string): Option<int> {
    if text != [] && AllDigits(text) then Some(DecimalValue(text)) else None
  }

  /** A number survives the trip through its element text, `None` included,
      which is written as the empty text. */
  lemma NumberTextRoundTrip(n: Option<int>)
    requires n.Some? ==> n.value >= 0
    ensures ReadNumber(NumberText(n)) == n
    ensures n.None? ==> NumberText(n) == ""
  {
    if n.Some? {
      DecimalRoundTrip(n.value);
    }
  }

  /** The children `buildNfo` appends, in order. */
  function NfoChildren(title: Option<string>, season: Option<int>, episode: Option<int>,
                       emptyElements: bool, extras: seq<string>, idType: string, id: string): seq<Element>
  {
    NfoFields(title, season, episode, emptyElements, idType, id)
    + (if emptyElements then Empties(extras) else [])
  }

  /** The children that describe the episode: title, numbers and id. */
  function NfoFields(title: Option<string>, season: Option<int>, episode: Option<int>,
                     emptyElements: bool, idType: string, id: string): seq<Element>
  {
    [Element("title", [], title, None, [])]
    + (if emptyElements || season.Some? then [Element("season", [], Some(NumberText(season)), None, [])] else [])
    + (if emptyElements || episode.Some? then [Element("episode", [], Some(NumberText(episode)), None, [])] else [])
    + [Element("uniqueid", [("type", idType)], Some(id), None, [])]
  }

  function NfoTree(title: Option<string>, season: Option<int>, episode: Option<int>,
                   emptyElements: bool, extras: seq<string>, idType: string, id: string): Element
  {
    Element("episodedetails", [], None, None,
            NfoChildren(title, season, episode, emptyElements, extras, idType, id))
  }

  /** One element without text per name, in order. */
  function Empties(names: seq<string>): (r: seq<Element>)
    ensures |r| == |names|
    ensures forall i :: 0 <= i < |names| ==> r[i] == Element(names[i], [], None, None, [])
  {
    if names == [] then [] else Empties(names[..|names| - 1]) + [Element(names[|names| - 1], [], None, None, [])]
  }

  function Tags(es: seq<Element>): (r: seq<string>)
    ensures |r| == |es| && forall i :: 0 <= i < |es| ==> r[i] == es[i].tag
  {
    seq(|es|, i requires 0 <= i < |es| => es[i].tag)
  }

  /** The first child with tag `tag`, if there is one. */
  function Child(es: seq<Element>, tag: string): Option<Element> {
    if es == [] then None
    else if es[0].tag == tag then Some(es[0])
    else Child(es[1..], tag)
  }

  /** The text of the first child with tag `tag`, if there is one. */
  function ChildText(es: seq<Element>, tag: string): Option<Option<string>> {
    if Child(es, tag).Some? then Some(Child(es, tag).value.text) else None
  }

  /** The children come in a fixed order: `title`, then `season` and `episode`
      when empty elements are wanted or the number is known, then `uniqueid`,
      then one element per extra name when empty elements are wanted. */
  lemma NfoOrder(title: Option<string>, season: Option<int>, episode: Option<int>,
                 emptyElements: bool, extras: seq<string>, idType: string, id: string)
    ensures Tags(NfoChildren(title, season, episode, emptyElements, extras, idType, id)) ==
      ["title"]
      + (if emptyElements || season.Some? then ["season"] else [])
      + (if emptyElements || episode.Some? then ["episode"] else [])
      + ["uniqueid"]
      + (if emptyElements then extras else [])
  {
    var cs := NfoChildren(title, season, episode, emptyElements, extras, idType, id);
    var ts := ["title"]
      + (if emptyElements || season.Some? then ["season"] else [])
      + (if emptyElements || episode.Some? then ["episode"] else [])
      + ["uniqueid"]
      + (if emptyElements then extras else []);
    assert |Tags(cs)| == |ts|;
    forall i | 0 <= i < |ts|
      ensures Tags(cs)[i] == ts[i]
    {
    }
  }

  /** `Child` finds the first child with the tag. */
  lemma {:induction false} ChildAt(es: seq<Element>, tag: string, i: nat)
    requires i < |es| && es[i].tag == tag
    requires forall j :: 0 <= j < i ==> es[j].tag != tag
    ensures Child(es, tag) == Some(es[i])
  {
    if i > 0 {
      ChildAt(es[1..], tag, i - 1);
    }
  }

  lemma {:induction false} ChildAbsent(es: seq<Element>, tag: string)
    requires forall j :: 0 <= j < |es| ==> es[j].tag != tag
    ensures Child(es, tag) == None
  {
    if es != [] {
      ChildAbsent(es[1..], tag);
    }
  }

  /** A reader of the tree gets the entity back: the title text, the numbers
      through their decimal text (an element is missing exactly when the
      number is unknown and empty elements are not wanted), and the unique
      id, on a `uniqueid` element whose `type` attribute is the id type. */
  lemma NfoReadBack(title: Option<string>, season: Option<int>, episode: Option<int>,
                    emptyElements: bool, extras: seq<string>, idType: string, id: string)
    requires season.Some? ==> season.value >= 0
    requires episode.Some? ==> episode.value >= 0
    ensures var cs := NfoChildren(title, season, episode, emptyElements, extras, idType, id);
      && ChildText(cs, "title") == Some(title)
      && Child(cs, "uniqueid") == Some(Element("uniqueid", [("type", idType)], Some(id), None, []))
    ensures var t := ChildText(NfoChildren(title, season, episode, emptyElements, extras, idType, id), "season");
      (t.Some? <==> emptyElements || season.Some?) && (t.Some? ==> t.value.Some? && ReadNumber(t.value.value) == season)
      && (t.Some? && season.None? ==> t.value == Some(""))
    ensures var t := ChildText(NfoChildren(title, season, episode, emptyElements, extras, idType, id), "episode");
      (t.Some? <==> emptyElements || episode.Some?) && (t.Some? ==> t.value.Some? && ReadNumber(t.value.value) == episode)
      && (t.Some? && episode.None? ==> t.value == Some(""))
  {
    var cs := NfoChildren(title, season, episode, emptyElements, extras, idType, id);
    var s := if emptyElements || season.Some? then 1 else 0;
    var e := if emptyElements || episode.Some? then 1 else 0;
    NfoOrder(title, season, episode, emptyElements, extras, idType, id);
    ChildAt(cs, "title", 0);
    ChildAt(cs, "uniqueid", 1 + s + e);
    if s == 1 {
      ChildAt(cs, "season", 1);
      NumberTextRoundTrip(season);
    } else {
      ChildAbsent(cs, "season");
    }
    if e == 1 {
      ChildAt(cs, "episode", 1 + s);
      NumberTextRoundTrip(episode);
    } else {
      ChildAbsent(cs, "episode");
    }
  }

  // ---- Indentation ----

  /** The whitespace `_prettify` puts before an element at depth `depth`. */
  function Gap(depth: nat): (r: string)
    ensures |r| == 1 + 2 * depth && r[0] == '\n'
    ensures forall i :: 1 <= i < |r| ==> r[i] == ' '
  {
    "\n" + Spaces(depth)
  }

  /** The tree `_prettify` leaves behind, for an element at depth `depth`: an
      element with children gets the gap of its children as text, every child
      but the last the same gap as tail, and the last child the gap of the
      element itself; the element's own tail is its parent's business, and
      an element without children is left alone. */
  function Pretty(e: Element, depth: nat): (r: Element)
    decreases e
    ensures r.tag == e.tag && r.attrib == e.attrib && r.tail == e.tail
    ensures |r.children| == |e.children|
    ensures e.children == [] ==> r == e
  {
    if e.children == [] then e
    else
      var n := |e.children|;
      e.(text := Some(Gap(depth + 1)),
         children := seq(n, i requires 0 <= i < n =>
           Pretty(e.children[i], depth + 1).(tail := Some(Gap(if i < n - 1 then depth + 1 else depth)))))
  }

  /** `_prettify` on a tree held as a value: each child is indented first,
      then the gap before it is set on its parent (first child) or on its
      previous sibling, and the last child gets the closing gap. */
  method Prettify(current: Element, depth: nat) returns (r: Element)
    decreases current
    ensures r == Pretty(current, depth)
  {
    r := current;
    var n := |current.children|;
    var i := 0;
    while i < n
      invariant 0 <= i <= n && |r.children| == n
      invariant r.tag == current.tag && r.attrib == current.attrib && r.tail == current.tail
      invariant i == 0 ==> r == current
      invariant i > 0 ==> r.text == Some(Gap(depth + 1))
      invariant forall j :: 0 <= j < i - 1 ==>
        r.children[j] == Pretty(current.children[j], depth + 1).(tail := Some(Gap(depth + 1)))
      invariant i > 0 ==> r.children[i - 1] == Pretty(current.children[i - 1], depth + 1).(tail :=
        if i == n then Some(Gap(depth)) else current.children[i - 1].tail)
      invariant forall j :: i <= j < n ==> r.children[j] == current.children[j]
    {
      var node := Prettify(current.children[i], depth + 1);
      if i == 0 {
        r := r.(text := Some(Gap(depth + 1)));
      } else {
        r := r.(children := r.children[i - 1 := r.children[i - 1].(tail := Some(Gap(depth + 1)))]);
      }
      if i == n - 1 {
        node := node.(tail := Some(Gap(depth)));
      }
      r := r.(children := r.children[i := node]);
      i := i + 1;
    }
  }

  /** Setting an element's tail and indenting it commute. */
  lemma PrettyTail(e: Element, depth: nat, tail: Option<string>)
    ensures Pretty(e.(tail := tail), depth) == Pretty(e, depth).(tail := tail)
  {
  }

  /** The `i`-th child of an indented element: the child indented one level
      deeper, followed by the gap before the next sibling or the closing tag. */
  lemma PrettyChild(e: Element, depth: nat, i: nat)
    requires i < |e.children|
    ensures Pretty(e, depth).children[i]
      == Pretty(e.children[i], depth + 1).(tail := Some(Gap(if i < |e.children| - 1 then depth + 1 else depth)))
  {
  }

  /** Indenting an indented tree changes nothing. */
  lemma {:induction false} PrettyIdempotent(e: Element, depth: nat)
    decreases e
    ensures Pretty(Pretty(e, depth), depth) == Pretty(e, depth)
  {
    if e.children != [] {
      var r := Pretty(e, depth);
      forall i | 0 <= i < |e.children|
        ensures Pretty(r, depth).children[i] == r.children[i]
      {
        PrettyIdempotent(e.children[i], depth + 1);
        PrettyChildStable(e, depth, i);
      }
    }
  }

  /** A child whose indentation is stable stays put when its parent is
      indented again. */
  lemma PrettyChildStable(e: Element, depth: nat, i: nat)
    requires i < |e.children|
    requires Pretty(Pretty(e.children[i], depth + 1), depth + 1) == Pretty(e.children[i], depth + 1)
    ensures Pretty(Pretty(e, depth), depth).children[i] == Pretty(e, depth).children[i]
  {
    var g := Some(Gap(if i < |e.children| - 1 then depth + 1 else depth));
    var c := Pretty(e.children[i], depth + 1);
    PrettyChild(e, depth, i);
    PrettyChild(Pretty(e, depth), depth, i);
    PrettyTail(c, depth + 1, g);
  }

  /** What indentation leaves of an element: its tags, attributes, leaf texts
      and structure, without tails and without the text of elements that
      have children. */
  function Skeleton(e: Element): Element
    decreases e
  {
    var n := |e.children|;
    Element(e.tag, e.attrib, if n == 0 then e.text else None, None,
            seq(n, i requires 0 <= i < n => Skeleton(e.children[i])))
  }

  /** Indentation only adds whitespace: everything else is kept. */
  lemma {:induction false} PrettySkeleton(e: Element, depth: nat)
    decreases e
    ensures Skeleton(Pretty(e, depth)) == Skeleton(e)
  {
    if e.children != [] {
      var r := Pretty(e, depth);
      var n := |e.children|;
      forall i | 0 <= i < n
        ensures Skeleton(r.children[i]) == Skeleton(e.children[i])
      {
        var g := Some(Gap(if i < n - 1 then depth + 1 else depth));
        PrettyTail(e.children[i], depth + 1, g);
        PrettySkeleton(e.children[i], depth + 1);
        SkeletonTail(Pretty(e.children[i], depth + 1), g);
      }
    }
  }

  lemma SkeletonTail(e: Element, tail: Option<string>)
    ensures Skeleton(e.(tail := tail)) == Skeleton(e)
  {
  }

  // ---- Serialisation ----

  function Concat(ss: seq<string>): string {
    if ss == [] then "" else ss[0] + Concat(ss[1..])
  }

  /** The entity ElementTree writes for a character of text. */
  function EscapeChar(c: char): string {
    if c == '&' then "&amp;" else if c == '<' then "&lt;" else if c == '>' then "&gt;" else [c]
  }

  /** ElementTree's escaping of element text and tails. */
  function EscapeText(s: string): (r: string)
    ensures forall i :: 0 <= i < |r| ==> r[i] != '<' && r[i] != '>'
  {
    if s == [] then "" else EscapeChar(s[0]) + EscapeText(s[1..])
  }

  /** ElementTree's escaping of attribute values: the quote as well. */
  function EscapeAttribute(s: string): (r: string)
    ensures forall i :: 0 <= i < |r| ==> r[i] != '<' && r[i] != '>' && r[i] != '"'
  {
    if s == [] then ""
    else (if s[0] == '"' then "&quot;" else EscapeChar(s[0])) + EscapeAttribute(s[1..])
  }

  /** The character an XML reader decodes at the start of `s`, and how many
      characters it takes. */
  function Decoded(s: string): (r: (nat, char))
    requires s != []
    ensures 1 <= r.0 <= |s|
  {
    if |s| >= 5 && s[..5] == "&amp;" then (5, '&')
    else if |s| >= 4 && s[..4] == "&lt;" then (4, '<')
    else if |s| >= 4 && s[..4] == "&gt;" then (4, '>')
    else (1, s[0])
  }

  /** What an XML reader makes of escaped text. */
  function Unescape(s: string): string
    decreases |s|
  {
    if s == [] then "" else [Decoded(s).1] + Unescape(s[Decoded(s).0..])
  }

  /** Escaping loses nothing: a reader gets the text back. */
  lemma {:induction false} EscapeTextRoundTrip(s: string)
    ensures Unescape(EscapeText(s)) == s
  {
    if s != [] {
      var h, t := EscapeChar(s[0]), EscapeText(s[1..]);
      DecodedChar(s[0], h + t);
      assert (h + t)[|h|..] == t;
      EscapeTextRoundTrip(s[1..]);
      assert s == [s[0]] + s[1..];
    }
  }

  lemma DecodedChar(c: char, r: string)
    requires |EscapeChar(c)| <= |r| && r[..|EscapeChar(c)|] == EscapeChar(c)
    ensures Decoded(r) == (|EscapeChar(c)|, c)
  {
    if c == '&' {
    } else if c == '<' {
      assert r[1] == "&lt;"[1];
    } else if c == '>' {
      assert r[1] == "&gt;"[1];
    } else {
      assert r[0] == c;
    }
  }

  /** Text without `&`, `<` and `>`, such as indentation, is written as it is. */
  lemma {:induction false} EscapePlain(s: string)
    requires forall i :: 0 <= i < |s| ==> s[i] != '&' && s[i] != '<' && s[i] != '>'
    ensures EscapeText(s) == s
  {
    if s != [] {
      EscapePlain(s[1..]);
      assert s == [s[0]] + s[1..];
    }
  }

  function OrEmpty(t: Option<string>): string {
    if t.Some? then t.value else ""
  }

  function Attributes(a: seq<(string, string)>): string {
    Concat(seq(|a|, i requires 0 <= i < |a| => " " + a[i].0 + "=\"" + EscapeAttribute(a[i].1) + "\""))
  }

  /** `ET.tostring(e, short_empty_elements=False)`: the start tag with its
      attributes, the text, the children, the end tag and the tail. */
  function Render(e: Element): string
    decreases e
  {
    StartTag(e) + EscapeText(OrEmpty(e.text))
    + Concat(seq(|e.children|, i requires 0 <= i < |e.children| => Render(e.children[i])))
    + EndTag(e) + EscapeText(OrEmpty(e.tail))
  }

  function StartTag(e: Element): string {
    "<" + e.tag + Attributes(e.attrib) + ">"
  }

  function EndTag(e: Element): string {
    "</" + e.tag + ">"
  }

  /** Children written one per line, indented by two spaces, without tails. */
  function Lines(cs: seq<Element>): seq<string> {
    seq(|cs|, i requires 0 <= i < |cs| => "\n  " + Render(cs[i].(tail := None)))
  }

  /** Gaps between items, the last one closing: the same text as every item
      preceded by the inner gap, then the closing gap. */
  lemma {:induction false} Interleave(xs: seq<string>, a: string, b: string)
    requires xs != []
    ensures var n := |xs|;
      a + Concat(seq(n, i requires 0 <= i < n => xs[i] + (if i < n - 1 then a else b)))
      == Concat(seq(n, i requires 0 <= i < n => a + xs[i])) + b
  {
    var n := |xs|;
    var l := seq(n, i requires 0 <= i < n => xs[i] + (if i < n - 1 then a else b));
    var r := seq(n, i requires 0 <= i < n => a + xs[i]);
    if n == 1 {
      assert Concat(l) == xs[0] + b + Concat([]);
      assert Concat(r) == a + xs[0] + Concat([]);
    } else {
      var m := n - 1;
      var t := xs[1..];
      Interleave(t, a, b);
      assert l[1..] == seq(m, i requires 0 <= i < m => t[i] + (if i < m - 1 then a else b));
      assert r[1..] == seq(m, i requires 0 <= i < m => a + t[i]);
      ShiftGap(a, b, xs[0], Concat(l[1..]), Concat(r[1..]));
    }
  }

  /** The step of `Interleave`: an item and its gap move past the gap that
      already went to the front. */
  lemma ShiftGap(a: string, b: string, x: string, l: string, r: string)
    requires a + l == r + b
    ensures a + ((x + a) + l) == ((a + x) + r) + b
  {
    calc {
      a + ((x + a) + l);
      (a + x) + (a + l);
      (a + x) + (r + b);
      ((a + x) + r) + b;
    }
  }

  /** A tagged element whose text is empty: its start tag, leaf text and end
      tag, without a tail. */
  lemma RenderTail(e: Element, tail: string)
    requires forall i :: 0 <= i < |tail| ==> tail[i] != '&' && tail[i] != '<' && tail[i] != '>'
    ensures Render(e.(tail := Some(tail))) == Render(e.(tail := None)) + tail
  {
    EscapePlain(tail);
  }

  /** An indented element whose children are leaves is written with every
      child on a line of its own, indented by two spaces, and the end tag on
      a line of its own. */
  lemma PrettyLayout(e: Element)
    requires e.children != [] && e.tail == None
    requires forall i :: 0 <= i < |e.children| ==> e.children[i].children == []
    ensures Render(Pretty(e, 0)) == StartTag(e) + Concat(Lines(e.children)) + "\n" + EndTag(e)
  {
    var n := |e.children|;
    var xs := seq(n, i requires 0 <= i < n => Render(e.children[i].(tail := None)));
    var a, b := Gap(1), Gap(0);
    assert a == "\n  " && b == "\n";
    var rs := PrettyLeaves(e, a, b, xs);
    Interleave(xs, a, b);
    PrettyRendered(e, a, rs);
    LinesOf(e.children, a, xs);
    Regroup(StartTag(e), a, Concat(rs), Concat(Lines(e.children)), b, EndTag(e));
  }

  lemma LinesOf(cs: seq<Element>, a: string, xs: seq<string>)
    requires a == "\n  "
    requires xs == seq(|cs|, i requires 0 <= i < |cs| => Render(cs[i].(tail := None)))
    ensures seq(|xs|, i requires 0 <= i < |xs| => a + xs[i]) == Lines(cs)
  {
  }

  lemma Regroup(p: string, a: string, c: string, q: string, b: string, z: string)
    requires a + c == q + b
    ensures p + a + c + z == p + q + b + z
  {
    assert p + a + c + z == p + (a + c) + z;
  }

  /** The rendered children of an indented element whose children are
      leaves: each child followed by its gap. */
  lemma PrettyLeaves(e: Element, a: string, b: string, xs: seq<string>) returns (rs: seq<string>)
    requires e.children != [] && a == Gap(1) && b == Gap(0)
    requires forall i :: 0 <= i < |e.children| ==> e.children[i].children == []
    requires xs == seq(|e.children|, i requires 0 <= i < |e.children| => Render(e.children[i].(tail := None)))
    ensures rs == seq(|e.children|, i requires 0 <= i < |e.children| => Render(Pretty(e, 0).children[i]))
    ensures rs == seq(|xs|, i requires 0 <= i < |xs| => xs[i] + (if i < |xs| - 1 then a else b))
  {
    var n := |e.children|;
    var p := Pretty(e, 0);
    rs := seq(n, i requires 0 <= i < n => Render(p.children[i]));
    forall i | 0 <= i < n
      ensures rs[i] == xs[i] + (if i < n - 1 then a else b)
    {
      RenderTail(e.children[i], if i < n - 1 then a else b);
    }
  }

  lemma PrettyRendered(e: Element, a: string, rs: seq<string>)
    requires e.children != [] && e.tail == None && a == Gap(1)
    requires rs == seq(|e.children|, i requires 0 <= i < |e.children| => Render(Pretty(e, 0).children[i]))
    ensures Render(Pretty(e, 0)) == StartTag(e) + a + Concat(rs) + EndTag(e)
  {
    EscapePlain(a);
    EscapePlain("");
  }

  // ---- The NFO of one video file ----

  /** One episode NFO: where the video file lives, how the tree is built and
      the episode it describes. Hashing and `os.path.abspath` are passed in as
      functions. */
  class EpisodeNfo {
    var dirName: Option<string>
    var fileRoot: Option<string>
    var fileExtension: Option<string>
    var emptyElements: bool
    var extraElements: seq<string>
    var uniqueIdSource: string
    var uniqueIdType: string
    var episode: Option<EpisodeEntity>
    var xmlTree: Option<Element>

    constructor (dirName: Option<string>, fileRoot: Option<string>, fileExtension: Option<string>,
                 emptyElements: bool, extraElements: seq<string>, uniqueIdSource: string, uniqueIdType: string)
      ensures this.dirName == dirName && this.fileRoot == fileRoot && this.fileExtension == fileExtension
      ensures this.emptyElements == emptyElements && this.extraElements == extraElements
      ensures this.uniqueIdSource == uniqueIdSource && this.uniqueIdType == uniqueIdType
      ensures episode == None && xmlTree == None
    {
      this.dirName := dirName;
      this.fileRoot := fileRoot;
      this.fileExtension := fileExtension;
      this.emptyElements := emptyElements;
      this.extraElements := extraElements;
      this.uniqueIdSource := uniqueIdSource;
      this.uniqueIdType := uniqueIdType;
      episode := None;
      xmlTree := None;
    }

    /** `basename`: the name of the sidecar file, when the root is known. */
    function Basename(): (r: Option<string>)
      reads this
      ensures r.Some? <==> fileRoot.Some?
      ensures r.Some? ==> var b, n := r.value, |fileRoot.value|;
        |b| == n + |Extension| && b[..n] == fileRoot.value && b[n..] == Extension
    {
      if fileRoot.Some? then Some(fileRoot.value + Extension) else None
    }

    /** `path`: the sidecar file in the directory of the video file. */
    function Path(): (r: string)
      reads this
      requires dirName.Some? && fileRoot.Some?
      ensures var b := Basename().value; |b| <= |r| && r[|r| - |b|..] == b
      ensures Relative(fileRoot.value) && dirName.value != [] && dirName.value[|dirName.value| - 1] != '/' ==>
        r == dirName.value + "/" + Basename().value
    {
      JoinEndsWith(dirName.value, fileRoot.value + Extension);
      Join(dirName.value, fileRoot.value + Extension)
    }

    /** `generateId`: the hash of the source the setting selects. */
    function GenerateId(md5: string -> string, abspath: string -> string): string
      reads this
      requires fileRoot.Some? && fileExtension.Some?
      requires uniqueIdSource != "filename" ==> dirName.Some?
    {
      md5(IdSource(uniqueIdSource, dirName, fileRoot.value + fileExtension.value, abspath))
    }

    /** What `buildNfo` reads: an episode, both parts of the file name and,
        unless the id comes from the file name alone, the directory. */
    predicate Ready()
      reads this
    {
      episode.Some? && fileRoot.Some? && fileExtension.Some? && (uniqueIdSource != "filename" ==> dirName.Some?)
    }

    /** The tree `buildNfo` makes from the fields and the episode. */
    function Tree(md5: string -> string, abspath: string -> string): Element
      reads this, episode.value
      requires Ready()
    {
      var ep := episode.value;
      NfoTree(ep.episodeTitle, ep.seasonNumber, ep.episodeNumber, emptyElements, extraElements,
              uniqueIdType, GenerateId(md5, abspath))
    }

    /** `buildNfo`: a fresh root, then its children appended one by one. */
    method BuildNfo(md5: string -> string, abspath: string -> string)
      requires Ready()
      modifies this`xmlTree
      ensures xmlTree == Some(Tree(md5, abspath))
    {
      var ep := episode.value;
      var root := Element("episodedetails", [], None, None, []);
      root := SubElement(root, "title", ep.episodeTitle);
      if emptyElements || ep.seasonNumber.Some? {
        root := SubElement(root, "season", Some(NumberText(ep.seasonNumber)));
      }
      if emptyElements || ep.episodeNumber.Some? {
        root := SubElement(root, "episode", Some(NumberText(ep.episodeNumber)));
      }
      root := SubElement(root, "uniqueid", None);
      var last := |root.children| - 1;
      root := root.(children := root.children[last := root.children[last].(attrib := [("type", uniqueIdType)])]);
      root := root.(children := root.children[last := root.children[last].(text := Some(GenerateId(md5, abspath)))]);
      ghost var fixed := root.children;
      assert fixed == NfoFields(ep.episodeTitle, ep.seasonNumber, ep.episodeNumber, emptyElements,
                                uniqueIdType, GenerateId(md5, abspath));
      if emptyElements {
        var extras := extraElements;
        var i := 0;
        while i < |extras|
          invariant 0 <= i <= |extras|
          invariant root == Element("episodedetails", [], None, None, fixed + Empties(extras[..i]))
        {
          assert extras[..i + 1] == extras[..i] + [extras[i]];
          root := SubElement(root, extras[i], None);
          i := i + 1;
        }
        assert extras[..i] == extras;
      } else {
        assert root.children == fixed + [];
      }
      xmlTree := Some(root);
    }

    /** `export`: builds the tree unless there is one, indents it in place and
        returns the document written to `Path()`. */
    method Export(md5: string -> string, abspath: string -> string) returns (xml: string)
      requires Ready()
      modifies this`xmlTree
      ensures var tree := if old(xmlTree).Some? then old(xmlTree).value else Tree(md5, abspath);
        xmlTree == Some(Pretty(tree, 0)) && xml == Declaration + "\n" + Render(Pretty(tree, 0))
    {
      if xmlTree.None? {
        BuildNfo(md5, abspath);
      }
      var tree := Prettify(xmlTree.value, 0);
      xmlTree := Some(tree);
      xml := Declaration + "\n" + Render(tree);
    }
  }

  /** The document `export` writes for a freshly built tree: the declaration,
      then `<episodedetails>` with one child per line. */
  lemma NfoLayout(e: Element, title: Option<string>, season: Option<int>, episode: Option<int>,
                  emptyElements: bool, extras: seq<string>, idType: string, id: string)
    requires e == NfoTree(title, season, episode, emptyElements, extras, idType, id)
    ensures Render(Pretty(e, 0)) == "<episodedetails>" + Concat(Lines(e.children)) + "\n" + "</episodedetails>"
  {
    NfoLeaves(title, season, episode, emptyElements, extras, idType, id);
    PrettyLayout(e);
    RootTags(e);
  }

  lemma RootTags(e: Element)
    requires e.tag == "episodedetails" && e.attrib == []
    ensures StartTag(e) == "<episodedetails>" && EndTag(e) == "</episodedetails>"
  {
    assert Attributes([]) == "";
  }

  lemma NfoLeaves(title: Option<string>, season: Option<int>, episode: Option<int>,
                  emptyElements: bool, extras: seq<string>, idType: string, id: string)
    ensures var cs := NfoChildren(title, season, episode, emptyElements, extras, idType, id);
      cs != [] && forall i :: 0 <= i < |cs| ==> cs[i].children == []
  {
  }
}
