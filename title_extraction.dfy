/**
 * `pickTitle` of the newer help viewer: find the first markdown H1-H3 line
 * (`/^#{1,3}\s+(.+?)\s*$/`), use its trimmed text as the title and drop that
 * line from the body, then strip a blank lead (`/^\s*\n/`).
 */
module TitleExtraction {
  import opened Optional
  import opened JsString

  /** Number of leading `#` characters. */
  function HashRun(line: string): (n: nat)
    ensures n <= |line|
    ensures forall i :: 0 <= i < n ==> line[i] == '#'
    ensures n < |line| ==> line[n] != '#'
  {
    if line == [] || line[0] != '#' then 0 else 1 + HashRun(line[1..])
  }

  lemma HashRunIs(line: string, n: nat)
    requires n <= |line| && forall i :: 0 <= i < n ==> line[i] == '#'
    requires n < |line| ==> line[n] != '#'
    ensures HashRun(line) == n
  {
  }

  /**
   * One way the heading pattern matches the whole line: `#{1,3}` is line[..n], `\s+` is
   * line[n..j], the captured `(.+?)` is line[j..e] (no line terminator, as `.` excludes
   * them) and `\s*` is line[e..].
   */
  ghost predicate HeadingMatch(line: string, n: nat, j: nat, e: nat) {
    && 1 <= n <= 3 && n < j < e <= |line|
    && (forall i :: 0 <= i < n ==> line[i] == '#')
    && SpaceIn(line, n, j) && NoTerminatorIn(line, j, e) && SpaceIn(line, e, |line|)
  }

  /** The line matches `/^#{1,3}\s+(.+?)\s*$/`. */
  ghost predicate IsHeadingLine(line: string) {
    exists n: nat, j: nat, e: nat :: HeadingMatch(line, n, j, e)
  }

  /** The title a heading line yields (`m[1].trim()`), or None when the line is not a heading. */
  function HeadingTitle(line: string): Option<string> {
    var n := HashRun(line);
    if 1 <= n <= 3 && n < |line| && IsSpace(line[n]) then
      var t := Trim(line[n..]);
      if t != [] then
        if NoTerminatorIn(t, 0, |t|) then Some(t) else None
      else if exists i | n < i < |line| :: !IsLineTerminator(line[i]) then Some([])
      else None
    else None
  }

  /**
   * HeadingTitle decides the regular expression, and its title is the trimmed capture of
   * every way the expression can match (so whichever capture the engine picks).
   */
  lemma HeadingTitleSpec(line: string)
    ensures HeadingTitle(line).Some? <==> IsHeadingLine(line)
    ensures forall n: nat, j: nat, e: nat :: HeadingMatch(line, n, j, e) ==> HeadingTitle(line) == Some(Trim(line[j..e]))
  {
    forall n: nat, j: nat, e: nat | HeadingMatch(line, n, j, e) ensures HeadingTitle(line) == Some(Trim(line[j..e])) {
      MatchGivesTitle(line, n, j, e);
    }
    if HeadingTitle(line).Some? {
      TitleGivesMatch(line);
    }
  }

  lemma MatchGivesTitle(line: string, n: nat, j: nat, e: nat)
    requires HeadingMatch(line, n, j, e)
    ensures HeadingTitle(line) == Some(Trim(line[j..e]))
  {
    HashRunIs(line, n);
    assert IsSpace(line[n]);
    CaptureTrim(line, n, j, e);
    var a, b := TrimWindowShape(line, j, e);
    var t := line[a..b];
    forall i | 0 <= i < |t| ensures !IsLineTerminator(t[i]) {
      assert t[i] == line[a + i];
    }
    assert !IsLineTerminator(line[j]);
  }

  /** Trimming the capture gives what trimming everything after the hashes gives. */
  lemma CaptureTrim(line: string, n: nat, j: nat, e: nat)
    requires n <= j <= e <= |line| && SpaceIn(line, n, j) && SpaceIn(line, e, |line|)
    ensures Trim(line[j..e]) == Trim(line[n..])
  {
    assert line[n..] == line[n..|line|];
    TrimPadded(line, n, |line|, j, e);
  }

  lemma TitleGivesMatch(line: string)
    requires HeadingTitle(line).Some?
    ensures IsHeadingLine(line)
  {
    var n := HashRun(line);
    var a, b := TrimWindowShape(line, n, |line|);
    assert line[n..] == line[n..|line|];
    if a < b {
      var t := line[a..b];
      forall i | a <= i < b ensures !IsLineTerminator(line[i]) {
        assert line[i] == t[i - a];
      }
      assert HeadingMatch(line, n, a, b);
    } else {
      var i :| n < i < |line| && !IsLineTerminator(line[i]);
      assert HeadingMatch(line, n, i, i + 1);
    }
  }

  /** Index of the last line feed before hi. */
  function LastNewline(s: string, hi: nat): (r: Option<nat>)
    requires hi <= |s|
    ensures r.Some? ==> r.value < hi && s[r.value] == '\n' && forall k :: r.value < k < hi ==> s[k] != '\n'
    ensures r.None? ==> forall k :: 0 <= k < hi ==> s[k] != '\n'
  {
    if hi == 0 then None
    else if s[hi - 1] == '\n' then Some(hi - 1)
    else LastNewline(s, hi - 1)
  }

  /** `.replace(/^\s*\n/, "")`: drop the whitespace lead up to and including its last line feed. */
  function StripBlankLead(s: string): string {
    match LastNewline(s, SkipSpace(s, 0, |s|))
    case None => s
    case Some(p) => s[p + 1..]
  }

  /** Where the strip cuts: just after the last line feed of the leading whitespace, or at 0. */
  lemma StripCut(s: string) returns (d: nat)
    ensures d <= SkipSpace(s, 0, |s|) && StripBlankLead(s) == s[d..]
    ensures d > 0 ==> s[d - 1] == '\n'
    ensures forall k | d <= k < SkipSpace(s, 0, |s|) :: s[k] != '\n'
  {
    match LastNewline(s, SkipSpace(s, 0, |s|))
    case None => d := 0;
    case Some(p) => d := p + 1;
  }

  /**
   * The strip removes the longest prefix of the form `\s*\n` (nothing when there is none),
   * so the whitespace that leads the result holds no line feed.
   */
  lemma StripBlankLeadSpec(s: string)
    ensures var r := StripBlankLead(s); |r| <= |s| && r == s[|s| - |r|..]
    ensures var d := |s| - |StripBlankLead(s)|; d > 0 ==> SpaceIn(s, 0, d) && s[d - 1] == '\n'
    ensures forall k | |s| - |StripBlankLead(s)| <= k < |s| && SpaceIn(s, 0, k + 1) :: s[k] != '\n'
    ensures var r := StripBlankLead(s); forall k | 0 <= k < SkipSpace(r, 0, |r|) :: r[k] != '\n'
  {
    var w := SkipSpace(s, 0, |s|);
    var d := StripCut(s);
    var r := StripBlankLead(s);
    assert |s| - |r| == d;
    forall k | d <= k < |s| && SpaceIn(s, 0, k + 1) ensures s[k] != '\n' {
      assert k < w;
    }
    forall i | 0 <= i < w - d ensures IsSpace(r[i]) && r[i] != '\n' {
      assert r[i] == s[d + i];
    }
    assert w < |s| ==> r[w - d] == s[w];
    SkipSpaceIs(r, 0, |r|, w - d);
  }

  /** The title each line would yield. */
  function Titles(lines: seq<string>): (ts: seq<Option<string>>)
    ensures |ts| == |lines| && forall k :: 0 <= k < |lines| ==> ts[k] == HeadingTitle(lines[k])
  {
    seq(|lines|, k requires 0 <= k < |lines| => HeadingTitle(lines[k]))
  }

  /** Index of the first present entry. */
  function FirstSome(ts: seq<Option<string>>): (r: Option<nat>)
    ensures r.Some? ==> r.value < |ts| && ts[r.value].Some? && forall k :: 0 <= k < r.value ==> ts[k].None?
    ensures r.None? <==> forall k :: 0 <= k < |ts| ==> ts[k].None?
  {
    if ts == [] then None
    else if ts[0].Some? then Some(0)
    else
      assert forall k :: 1 <= k < |ts| ==> ts[1..][k - 1] == ts[k];
      match FirstSome(ts[1..])
      case None => None
      case Some(i) => Some(i + 1)
  }

  /** Index of the first heading line. */
  function FirstHeading(lines: seq<string>): Option<nat> {
    FirstSome(Titles(lines))
  }

  /** The first present entry is the only present one with none present before it. */
  lemma FirstSomeIs(ts: seq<Option<string>>, i: nat)
    requires i < |ts| && ts[i].Some? && forall k :: 0 <= k < i ==> ts[k].None?
    ensures FirstSome(ts) == Some(i)
  {
  }

  /** What `pickTitle` returns. */
  datatype Picked = Picked(title: Option<string>, body: string)

  /** The lines other than line i, in order. */
  function Without(lines: seq<string>, i: nat): seq<string>
    requires i < |lines|
  {
    lines[..i] + lines[i + 1..]
  }

  /** `pickTitle(md)` as a value. */
  function TitleOf(md: string): Picked {
    var lines := SplitLines(md);
    match FirstHeading(lines)
    case None => Picked(None, md)
    case Some(i) => Picked(HeadingTitle(lines[i]), StripBlankLead(JoinLines(Without(lines, i))))
  }

  /** `pickTitle`: scan the lines for the first heading and return early with it. */
  method PickTitle(md: string) returns (title: Option<string>, body: string)
    ensures Picked(title, body) == TitleOf(md)
  {
    var lines := SplitLines(md);
    for i := 0 to |lines|
      invariant forall k :: 0 <= k < i ==> HeadingTitle(lines[k]).None?
    {
      var m := HeadingTitle(lines[i]);
      if m.Some? {
        FirstSomeIs(Titles(lines), i);
        title := Some(m.value);
        body := StripBlankLead(JoinLines(lines[..i] + lines[i + 1..]));
        return;
      }
    }
    assert FirstHeading(lines) == None;
    return None, md;
  }

  /** A line yields a title exactly when it matches the heading pattern. */
  lemma TitlesAgree(lines: seq<string>)
    ensures forall k :: 0 <= k < |lines| ==> (Titles(lines)[k].Some? <==> IsHeadingLine(lines[k]))
  {
    forall k | 0 <= k < |lines| ensures Titles(lines)[k].Some? <==> IsHeadingLine(lines[k]) {
      HeadingTitleSpec(lines[k]);
    }
  }

  /** Some line of the list matches the heading pattern. */
  ghost predicate HasHeadingLine(lines: seq<string>) {
    exists k :: 0 <= k < |lines| && IsHeadingLine(lines[k])
  }

  /** There is a title exactly when some line is a heading; without one the markdown is returned as is. */
  lemma TitleOfNoHeading(md: string)
    ensures TitleOf(md).title.Some? <==> HasHeadingLine(SplitLines(md))
    ensures TitleOf(md).title.None? ==> TitleOf(md).body == md
  {
    var lines := SplitLines(md);
    var ts := Titles(lines);
    TitlesAgree(lines);
    match FirstSome(ts)
    case None =>
      assert TitleOf(md) == Picked(None, md);
      forall k | 0 <= k < |lines| ensures !IsHeadingLine(lines[k]) {
        assert ts[k].None?;
      }
    case Some(i) =>
      assert TitleOf(md).title == ts[i] && ts[i].Some?;
      assert IsHeadingLine(lines[i]);
  }

  /**
   * `p` is what picking line i as the title gives: line i is the first heading line, the
   * title is its trimmed capture, and the body is the other lines with the blank lead stripped.
   */
  ghost predicate PickedFromLine(lines: seq<string>, i: nat, p: Picked) {
    && i < |lines| && IsHeadingLine(lines[i])
    && (forall k :: 0 <= k < i ==> !IsHeadingLine(lines[k]))
    && p.title.Some?
    && (forall n: nat, j: nat, e: nat :: HeadingMatch(lines[i], n, j, e) ==> p.title.value == Trim(lines[i][j..e]))
    && p.body == StripBlankLead(JoinLines(Without(lines, i)))
  }

  /**
   * Otherwise the title is the trimmed capture of the first line matching the heading
   * pattern, and that line is the only one removed from the body.
   */
  lemma TitleOfHeading(md: string)
    requires TitleOf(md).title.Some?
    ensures exists i: nat :: PickedFromLine(SplitLines(md), i, TitleOf(md))
  {
    var lines := SplitLines(md);
    var ts := Titles(lines);
    TitlesAgree(lines);
    var i := FirstSome(ts).value;
    var p := TitleOf(md);
    assert p == Picked(ts[i], StripBlankLead(JoinLines(Without(lines, i))));
    HeadingTitleSpec(lines[i]);
    assert IsHeadingLine(lines[i]);
    assert forall k :: 0 <= k < i ==> !IsHeadingLine(lines[k]);
    assert PickedFromLine(lines, i, p);
  }

  /**
   * Before the blank lead is stripped, the body is exactly the other lines in their order:
   * splitting it again gives them back, later heading lines included.
   */
  lemma BodyKeepsOtherLines(md: string, i: nat)
    requires i < |SplitLines(md)| && |SplitLines(md)| >= 2
    ensures SplitLines(JoinLines(Without(SplitLines(md), i))) == Without(SplitLines(md), i)
  {
    var lines := SplitLines(md);
    var rest := Without(lines, i);
    assert forall k :: 0 <= k < |rest| ==> rest[k] == (if k < i then lines[k] else lines[k + 1]);
    SplitJoin(rest);
  }

  /** The heading a section shows: `title ?? key`. */
  function SectionHeading(key: string, content: string): string {
    TitleOf(content).title.GetOr(key)
  }

  /** Only a missing title falls back to the key; an empty title is shown as it is. */
  lemma SectionHeadingSpec(key: string, content: string)
    ensures TitleOf(content).title.None? ==> SectionHeading(key, content) == key
    ensures TitleOf(content).title == Some("") ==> SectionHeading(key, content) == ""
    ensures SectionHeading(key, content) == key || TitleOf(content).title == Some(SectionHeading(key, content))
  {
  }

  /** A line of a hash and two spaces is a heading whose title is empty. */
  lemma EmptyTitleHeading()
    ensures HeadingTitle("#  ") == Some("")
  {
    var line := "#  ";
    assert HashRun(line[1..]) == 0;
    TrimIs(line[1..], 2, 2);
    assert !IsLineTerminator(line[2]);
  }

  /**
   * Hashes followed only by whitespace: the line is a heading, with the empty title, exactly
   * when some whitespace character after the first is not a line terminator. So `"# "` and
   * `"#\t\r"` are not headings, while `"#  "` is.
   */
  lemma BlankHeading(hashes: string, blank: string)
    requires 1 <= |hashes| <= 3 && forall i :: 0 <= i < |hashes| ==> hashes[i] == '#'
    requires blank != [] && SpaceIn(blank, 0, |blank|)
    ensures IsHeadingLine(hashes + blank) <==> exists i | 0 < i < |blank| :: !IsLineTerminator(blank[i])
    ensures HeadingTitle(hashes + blank) ==
      if exists i | 0 < i < |blank| :: !IsLineTerminator(blank[i]) then Some("") else None
  {
    var line := hashes + blank;
    var n := |hashes|;
    assert forall i :: 0 <= i < |blank| ==> line[n + i] == blank[i];
    HashRunIs(line, n);
    assert line[n..] == blank;
    TrimIs(blank, 0, 0);
    if exists i | 0 < i < |blank| :: !IsLineTerminator(blank[i]) {
      var i :| 0 < i < |blank| && !IsLineTerminator(blank[i]);
      assert !IsLineTerminator(line[n + i]);
    }
    HeadingTitleSpec(line);
  }

  /** A line that starts with four hashes is not a heading. */
  lemma FourHashesNotHeading(line: string)
    requires 4 <= |line| && forall i :: 0 <= i < 4 ==> line[i] == '#'
    ensures !IsHeadingLine(line)
  {
    HeadingTitleSpec(line);
  }

  /** A line whose hashes are not followed by whitespace (`#Title`, or only hashes) is not a heading. */
  lemma NoSpaceNotHeading(line: string)
    requires HashRun(line) == |line| || !IsSpace(line[HashRun(line)])
    ensures !IsHeadingLine(line)
  {
    HeadingTitleSpec(line);
  }

  /**
   * Hashes, whitespace, a text without line terminators that neither starts nor ends with
   * whitespace, and trailing whitespace: the title is exactly that text.
   */
  lemma TrailingBlanksTrimmed(hashes: string, pad: string, text: string, tail: string)
    requires 1 <= |hashes| <= 3 && forall i :: 0 <= i < |hashes| ==> hashes[i] == '#'
    requires pad != [] && SpaceIn(pad, 0, |pad|) && SpaceIn(tail, 0, |tail|) && NoTerminatorIn(text, 0, |text|)
    requires text != [] && !IsSpace(text[0]) && !IsSpace(text[|text| - 1])
    ensures IsHeadingLine(hashes + pad + text + tail)
    ensures HeadingTitle(hashes + pad + text + tail) == Some(text)
  {
    var line := hashes + pad + text + tail;
    var n := |hashes|;
    var j := n + |pad|;
    var e := j + |text|;
    HeadingParts(hashes, pad, text, tail);
    MatchGivesTitle(line, n, j, e);
    TrimWhole(text);
  }

  /** A text that neither starts nor ends with whitespace is its own trim. */
  lemma TrimWhole(text: string)
    requires text != [] && !IsSpace(text[0]) && !IsSpace(text[|text| - 1])
    ensures Trim(text) == text
  {
    TrimIs(text, 0, |text|);
    assert text[0..|text|] == text;
  }

  /** Where the parts of such a line lie. */
  lemma HeadingParts(hashes: string, pad: string, text: string, tail: string)
    requires 1 <= |hashes| <= 3 && forall i :: 0 <= i < |hashes| ==> hashes[i] == '#'
    requires pad != [] && SpaceIn(pad, 0, |pad|) && SpaceIn(tail, 0, |tail|) && NoTerminatorIn(text, 0, |text|) && text != []
    ensures var line := hashes + pad + text + tail;
      && HeadingMatch(line, |hashes|, |hashes| + |pad|, |hashes| + |pad| + |text|)
      && line[|hashes| + |pad|..|hashes| + |pad| + |text|] == text
  {
    var line := hashes + pad + text + tail;
    var n := |hashes|;
    var j := n + |pad|;
    var e := j + |text|;
    forall i | 0 <= i < n ensures line[i] == '#' {
      assert line[i] == hashes[i];
    }
    forall i | n <= i < j ensures IsSpace(line[i]) {
      assert line[i] == pad[i - n];
    }
    forall i | j <= i < e ensures !IsLineTerminator(line[i]) {
      assert line[i] == text[i - j];
    }
    forall i | e <= i < |line| ensures IsSpace(line[i]) {
      assert line[i] == tail[i - e];
    }
    assert line[j..e] == text;
  }
}
