/**
 * Helpers shared by the Sphinx extensions: the interpretation of a role's
 * raw text (`RoleContent.parse`) and `make_section`.
 */
module ExtUtils {
  import opened Wrappers
  import opened Strings
  import opened Docutils

  /** `RoleContent`: the last-component flag, the custom display text if any, and the reference. */
  datatype RoleContent = RoleContent(lastComponent: bool, display: Option<string>, ref: string)

  // ---------------------------------------------------------------------
  // The display pattern `(?P<display>.+)<(?P<reference>.+)>` under `re.match`
  // ---------------------------------------------------------------------

  /**
   * `s` matches the display pattern with the label ending before index `i`
   * (which holds `<`) and the reference ending before index `j` (which holds
   * `>`): both groups are non-empty and `.` never consumed a newline. The
   * match is anchored at the start only, so nothing is asked of `s[j+1..]`.
   */
  predicate IsDisplayMatch(s: string, i: int, j: int)
  {
    && 1 <= i && i + 2 <= j < |s|
    && s[i] == '<' && s[j] == '>'
    && forall k :: 0 <= k <= j ==> s[k] != '\n'
  }

  /**
   * The match the regex engine reports: both `.+` are greedy, so the largest
   * usable `i` wins, and for that `i` the largest `j`.
   */
  ghost predicate IsGreedyDisplayMatch(s: string, i: int, j: int)
  {
    && IsDisplayMatch(s, i, j)
    && forall i', j' :: IsDisplayMatch(s, i', j') ==> i' < i || (i' == i && j' <= j)
  }

  /** The greedy match is unique. */
  lemma GreedyDisplayMatchUnique(s: string, i: int, j: int, i': int, j': int)
    requires IsGreedyDisplayMatch(s, i, j) && IsGreedyDisplayMatch(s, i', j')
    ensures i == i' && j == j'
  {
  }

  /** The index of the first newline, or `|s|` when there is none. */
  function LineEnd(s: string): (n: nat)
    ensures n <= |s|
    ensures forall k :: 0 <= k < n ==> s[k] != '\n'
    ensures n < |s| ==> s[n] == '\n'
  {
    if '\n' in s then IndexOf(s, '\n') else |s|
  }

  /** The largest index in `[lo, hi)` holding `c`. */
  function LastIndexIn(s: string, c: char, lo: nat, hi: int): (r: Option<nat>)
    requires hi <= |s|
    ensures r.Some? ==> lo <= r.value < hi && s[r.value] == c
    ensures r.Some? ==> forall k :: r.value < k < hi ==> s[k] != c
    ensures r.None? ==> forall k :: lo <= k < hi ==> s[k] != c
    decreases hi - lo
  {
    if hi <= lo then None
    else if s[hi - 1] == c then Some(hi - 1)
    else LastIndexIn(s, c, lo, hi - 1)
  }

  /**
   * `ROLE_DISPLAY_PATTERN.match(s)`, as the pair of split indexes: the
   * greedy match when there is one, `None` when no match exists.
   */
  function MatchDisplayPattern(s: string): (r: Option<(nat, nat)>)
    ensures r.Some? ==> IsGreedyDisplayMatch(s, r.value.0, r.value.1)
    ensures r.None? ==> forall i, j :: !IsDisplayMatch(s, i, j)
  {
    var n := LineEnd(s);
    match LastIndexIn(s, '>', 0, n)
    case None => None
    case Some(j) =>
      match LastIndexIn(s, '<', 1, j - 1)
      case None => None
      case Some(i) => Some((i, j))
  }

  /** The split `MatchDisplayPattern` reports is the greedy match, whenever there is one. */
  lemma GreedyMatchIsReported(s: string, i: int, j: int)
    requires IsGreedyDisplayMatch(s, i, j)
    ensures MatchDisplayPattern(s) == Some((i, j))
  {
    var m := MatchDisplayPattern(s);
    assert m.Some? by {
      assert IsDisplayMatch(s, i, j);
    }
    GreedyDisplayMatchUnique(s, i, j, m.value.0, m.value.1);
  }

  // ---------------------------------------------------------------------
  // RoleContent.parse
  // ---------------------------------------------------------------------

  /** The role text with its leading `~` markers removed (untouched when it has none). */
  function WithoutSigil(raw: string): (r: string)
    ensures r == [] || r[0] != '~'
    ensures StartsWith(raw, '~') ==> r == LStripChar(raw, '~') && |r| < |raw|
    ensures !StartsWith(raw, '~') ==> r == raw
  {
    if StartsWith(raw, '~') then LStripChar(raw, '~') else raw
  }

  /** `RoleContent.parse`: splits a role's raw text into flag, custom display and reference. */
  function Parse(raw: string): (r: RoleContent)
    ensures r.lastComponent <==> StartsWith(raw, '~')
    ensures r.display.Some? <==> MatchDisplayPattern(WithoutSigil(raw)).Some?
    ensures r.display.None? ==> r.ref == Strip(WithoutSigil(raw))
    ensures r.display.Some? ==>
      var body, m := WithoutSigil(raw), MatchDisplayPattern(WithoutSigil(raw));
      && m.Some?
      && r.display.value == Strip(body[..m.value.0])
      && r.ref == Strip(body[m.value.0 + 1..m.value.1])
  {
    var body := WithoutSigil(raw);
    var m := MatchDisplayPattern(body);
    if m.Some? then
      var i, j := m.value.0, m.value.1;
      RoleContent(StartsWith(raw, '~'), Some(Strip(body[..i])), Strip(body[i + 1..j]))
    else
      RoleContent(StartsWith(raw, '~'), None, Strip(body))
  }

  /** A custom display is present exactly when some split of the text matches the pattern. */
  lemma ParseDisplayIffMatch(raw: string)
    ensures Parse(raw).display.Some? <==> exists i, j :: IsDisplayMatch(WithoutSigil(raw), i, j)
  {
    var m := MatchDisplayPattern(WithoutSigil(raw));
    if m.Some? {
      assert IsDisplayMatch(WithoutSigil(raw), m.value.0, m.value.1);
    }
  }

  /** When the pattern matches, the display and the reference are the trimmed groups of the greedy match. */
  lemma ParseGreedy(raw: string, i: int, j: int)
    requires IsGreedyDisplayMatch(WithoutSigil(raw), i, j)
    ensures Parse(raw).display == Some(Strip(WithoutSigil(raw)[..i]))
    ensures Parse(raw).ref == Strip(WithoutSigil(raw)[i + 1..j])
  {
    GreedyMatchIsReported(WithoutSigil(raw), i, j);
  }

  /** `parse` never fails, and the empty text gives an empty reference. */
  lemma ParseEmpty()
    ensures Parse("") == RoleContent(false, None, "")
  {
  }

  /**
   * In `shown<name>rest`, with no newline before the end and no `>` after the
   * `<`, the greedy match splits at the `<` and `>` around `name`.
   */
  lemma DisplayAroundName(shown: string, name: string, rest: string)
    requires |shown| >= 1 && |name| >= 1
    requires '\n' !in shown && '\n' !in name && '\n' !in rest
    requires '<' !in name && '>' !in name && '>' !in rest
    ensures var s, i := shown + "<" + name + ">" + rest, |shown|;
      IsGreedyDisplayMatch(s, i, i + 1 + |name|)
  {
    var s := shown + "<" + name + ">" + rest;
    var i, j := |shown|, |shown| + 1 + |name|;
    assert forall k :: 0 <= k < i ==> s[k] == shown[k];
    assert forall k :: i < k < j ==> s[k] == name[k - i - 1];
    assert forall k :: j < k < |s| ==> s[k] == rest[k - j - 1];
    assert s[i] == '<' && s[j] == '>';
    forall i', j' | IsDisplayMatch(s, i', j')
      ensures i' < i || (i' == i && j' <= j)
    {
    }
  }

  /** A text with a match yields the label and the reference of the greedy match. */
  lemma {:induction false} ParseWithDisplay(shown: string, name: string, rest: string)
    requires |shown| >= 1 && |name| >= 1
    requires shown[0] != '~'
    requires '\n' !in shown && '\n' !in name
    requires '<' !in name && '>' !in name && '>' !in rest && '\n' !in rest
    ensures var r := Parse(shown + "<" + name + ">" + rest);
      r == RoleContent(false, Some(Strip(shown)), Strip(name))
  {
    var s := shown + "<" + name + ">" + rest;
    var i, j := |shown|, |shown| + 1 + |name|;
    assert s[..i] == shown && s[i + 1..j] == name;
    assert WithoutSigil(s) == s;
    DisplayAroundName(shown, name, rest);
    ParseGreedy(s, i, j);
  }

  /** A plain name parses to itself, with the flag set exactly when it was written with a `~`. */
  lemma ParsePlain(name: string)
    requires '>' !in name
    requires name == [] || (name[0] != '~' && !IsSpace(name[0]) && !IsSpace(name[|name| - 1]))
    ensures Parse(name) == RoleContent(false, None, name)
    ensures Parse("~" + name) == RoleContent(true, None, name)
  {
    StripOfTrimmed(name);
    assert ("~" + name)[1..] == name;
    assert WithoutSigil("~" + name) == name;
  }

  /** Without a `>` before the first newline there is no custom display: `.` does not cross a newline. */
  lemma ParseNoCloseOnFirstLine(raw: string)
    requires forall k :: 0 <= k < LineEnd(WithoutSigil(raw)) ==> WithoutSigil(raw)[k] != '>'
    ensures Parse(raw).display == None
    ensures Parse(raw).ref == Strip(WithoutSigil(raw))
  {
  }

  /**
   * Only the leading run of `~` is removed before trimming, so a blank between
   * markers leaves a `~` at the head of the reference.
   */
  lemma ParseTildeAfterBlank(raw: string, name: string)
    requires raw == ['~', ' ', '~'] + name
    requires '>' !in name
    requires |name| > 0 && !IsSpace(name[|name| - 1])
    ensures Parse(raw) == RoleContent(true, None, ['~'] + name)
  {
    var rest := ['~'] + name;
    var body := [' '] + rest;
    assert WithoutSigil(raw) == body by {
      assert raw == ['~'] + body;
      WithoutOneSigil(body);
    }
    assert Strip(body) == rest by {
      StripOfTrimmed(rest);
      StripLeadingSpace(' ', rest);
    }
    ParseWithoutClose(raw, rest);
  }

  /** With no `>` at all after the markers, the text is a plain reference. */
  lemma ParseWithoutClose(raw: string, ref: string)
    requires '>' !in WithoutSigil(raw)
    requires Strip(WithoutSigil(raw)) == ref
    ensures Parse(raw) == RoleContent(StartsWith(raw, '~'), None, ref)
  {
    ParseNoCloseOnFirstLine(raw);
  }

  /** One `~` in front of a text that does not start with `~` is removed. */
  lemma WithoutOneSigil(s: string)
    requires s == [] || s[0] != '~'
    ensures WithoutSigil(['~'] + s) == s
  {
    assert (['~'] + s)[1..] == s;
  }

  // Two documented examples of `RoleContent.parse`; the third,
  // "Tables <lsst.afw.table.Table>", is an instance of ParseWithDisplay.

  lemma ParseExampleLastComponent()
    ensures Parse("~" + "lsst.afw.table.Table") == RoleContent(true, None, "lsst.afw.table.Table")
  {
    ParsePlain("lsst.afw.table.Table");
  }

  lemma ParseExampleNoDisplay()
    ensures Parse("lsst.afw.table.Table") == RoleContent(false, None, "lsst.afw.table.Table")
  {
    ParsePlain("lsst.afw.table.Table");
  }

  // ---------------------------------------------------------------------
  // make_section
  // ---------------------------------------------------------------------

  /** A docutils `section` element: its `ids`, `names` and children. */
  class Section {
    var ids: seq<string>
    var names: seq<string>
    var children: seq<Node>

    constructor ()
      ensures ids == [] && names == [] && children == []
    {
      ids, names, children := [], [], [];
    }
  }

  /**
   * `make_section`: a new section whose ids hold the slug of `sectionId`,
   * whose names hold `sectionId`, and whose children are `contents` in order.
   */
  method MakeSection(sectionId: string, contents: Option<seq<Node>>, makeId: string -> string)
    returns (section: Section)
    ensures fresh(section)
    ensures section.ids == [makeId(sectionId)]
    ensures section.names == [sectionId]
    ensures section.children == if contents.Some? then contents.value else []
  {
    section := new Section();
    section.ids := section.ids + [makeId(sectionId)];
    section.names := section.names + [sectionId];
    if contents.Some? {
      section.children := section.children + contents.value;
    }
  }
}
