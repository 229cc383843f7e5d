/**
 * The JavaScript string built-ins the help viewer relies on, over `seq<char>`:
 * the whitespace class of regular expressions and `trim`, `indexOf`, `includes`,
 * `startsWith`, `endsWith`, `replace` with a string pattern, `split("\n")`,
 * `join("\n")` and `toLowerCase`.
 */
module JsString {
  import opened Optional

  /** ECMAScript WhiteSpace and LineTerminator code points: what `\s` matches and `trim` removes. */
  predicate IsSpace(c: char) {
    c == '\t' || c == '\n' || c == '\U{B}' || c == '\U{C}' || c == '\r' || c == ' '
    || c == '\U{A0}' || c == '\U{1680}' || ('\U{2000}' <= c <= '\U{200A}')
    || c == '\U{2028}' || c == '\U{2029}' || c == '\U{202F}' || c == '\U{205F}'
    || c == '\U{3000}' || c == '\U{FEFF}'
  }

  /** ECMAScript LineTerminator code points: the characters a regular-expression `.` does not match. */
  predicate IsLineTerminator(c: char) {
    c == '\n' || c == '\r' || c == '\U{2028}' || c == '\U{2029}'
  }

  /** Every character of s at an index in [lo, hi) is whitespace. */
  predicate SpaceIn(s: string, lo: nat, hi: nat) {
    forall i | lo <= i < hi && i < |s| :: IsSpace(s[i])
  }

  /** No character of s at an index in [lo, hi) is a line terminator. */
  predicate NoTerminatorIn(s: string, lo: nat, hi: nat) {
    forall i | lo <= i < hi && i < |s| :: !IsLineTerminator(s[i])
  }

  /** The end of the whitespace run of s that starts at i, looking no further than hi. */
  function SkipSpace(s: string, i: nat, hi: nat): (k: nat)
    requires i <= hi <= |s|
    ensures i <= k <= hi && SpaceIn(s, i, k)
    ensures k < hi ==> !IsSpace(s[k])
    decreases hi - i
  {
    if i == hi || !IsSpace(s[i]) then i else SkipSpace(s, i + 1, hi)
  }

  /** The start of the whitespace run of s that ends at i, looking no further back than lo. */
  function SkipSpaceBack(s: string, lo: nat, i: nat): (k: nat)
    requires lo <= i <= |s|
    ensures lo <= k <= i && SpaceIn(s, k, i)
    ensures lo < k ==> !IsSpace(s[k - 1])
    decreases i - lo
  {
    if i == lo || !IsSpace(s[i - 1]) then i else SkipSpaceBack(s, lo, i - 1)
  }

  /** An index that ends a whitespace run from i and is followed by non-whitespace (or hi) is where SkipSpace stops. */
  lemma SkipSpaceIs(s: string, i: nat, hi: nat, k: nat)
    requires i <= k <= hi <= |s| && SpaceIn(s, i, k)
    requires k < hi ==> !IsSpace(s[k])
    ensures SkipSpace(s, i, hi) == k
  {
    var x := SkipSpace(s, i, hi);
  }

  /** `String.prototype.trim`: whitespace removed from both ends. */
  function Trim(s: string): string {
    var a := SkipSpace(s, 0, |s|);
    s[a..SkipSpaceBack(s, a, |s|)]
  }

  /** Trim(s) is the slice s[a..b] whenever s[..a] and s[b..] are whitespace and s[a..b] is empty or starts and ends with a non-whitespace character. */
  lemma TrimIs(s: string, a: nat, b: nat)
    requires a <= b <= |s| && SpaceIn(s, 0, a) && SpaceIn(s, b, |s|)
    requires a < b ==> !IsSpace(s[a]) && !IsSpace(s[b - 1])
    ensures Trim(s) == s[a..b]
  {
    var x := SkipSpace(s, 0, |s|);
    if a < b {
      SkipSpaceIs(s, 0, |s|, a);
      var y := SkipSpaceBack(s, a, |s|);
    }
  }

  /** The indices of s that Trim keeps. */
  lemma TrimShape(s: string) returns (a: nat, b: nat)
    ensures a <= b <= |s| && Trim(s) == s[a..b]
    ensures SpaceIn(s, 0, a) && SpaceIn(s, b, |s|)
    ensures a < b ==> !IsSpace(s[a]) && !IsSpace(s[b - 1])
  {
    a := SkipSpace(s, 0, |s|);
    b := SkipSpaceBack(s, a, |s|);
  }

  /** Trimming the window s[lo..hi], stated in the indices of s. */
  lemma TrimWindow(s: string, lo: nat, hi: nat, a: nat, b: nat)
    requires lo <= a <= b <= hi <= |s| && SpaceIn(s, lo, a) && SpaceIn(s, b, hi)
    requires a < b ==> !IsSpace(s[a]) && !IsSpace(s[b - 1])
    ensures Trim(s[lo..hi]) == s[a..b]
  {
    var w := s[lo..hi];
    forall i | 0 <= i < a - lo ensures IsSpace(w[i]) {
      assert w[i] == s[lo + i];
    }
    forall i | b - lo <= i < |w| ensures IsSpace(w[i]) {
      assert w[i] == s[lo + i];
    }
    TrimIs(w, a - lo, b - lo);
    SliceOfSlice(s, lo, hi, a - lo, b - lo);
  }

  /** The indices of s that trimming the window s[lo..hi] keeps. */
  lemma TrimWindowShape(s: string, lo: nat, hi: nat) returns (a: nat, b: nat)
    requires lo <= hi <= |s|
    ensures lo <= a <= b <= hi && Trim(s[lo..hi]) == s[a..b]
    ensures SpaceIn(s, lo, a) && SpaceIn(s, b, hi)
    ensures a < b ==> !IsSpace(s[a]) && !IsSpace(s[b - 1])
  {
    var w := s[lo..hi];
    var x, y := TrimShape(w);
    a, b := lo + x, lo + y;
    forall i | lo <= i < a ensures IsSpace(s[i]) {
      assert s[i] == w[i - lo];
    }
    forall i | b <= i < hi ensures IsSpace(s[i]) {
      assert s[i] == w[i - lo];
    }
    SliceOfSlice(s, lo, hi, x, y);
    if a < b {
      assert s[a] == w[x] && s[b - 1] == w[y - 1];
    }
  }

  /** A slice of the window s[lo..hi], in the indices of s. */
  lemma SliceOfSlice(s: string, lo: nat, hi: nat, x: nat, y: nat)
    requires lo <= hi <= |s| && x <= y <= hi - lo
    ensures s[lo..hi][x..y] == s[lo + x..lo + y]
  {
    assert forall i | 0 <= i < y - x :: s[lo..hi][x..y][i] == s[lo + x + i];
  }

  /** Whitespace padding around a window does not change what `trim` returns. */
  lemma TrimPadded(s: string, lo: nat, hi: nat, j: nat, e: nat)
    requires lo <= j <= e <= hi <= |s| && SpaceIn(s, lo, j) && SpaceIn(s, e, hi)
    ensures Trim(s[j..e]) == Trim(s[lo..hi])
  {
    var a, b := TrimWindowShape(s, lo, hi);
    if a < b {
      TrimWindow(s, j, e, a, b);
    } else {
      TrimWindow(s, j, e, j, j);
    }
  }

  /** `pat` occurs in `s` starting at index k. */
  predicate OccursAt(s: string, pat: string, k: nat) {
    k + |pat| <= |s| && s[k..k + |pat|] == pat
  }

  lemma OccursShift(s: string, pat: string, k: nat)
    requires s != []
    ensures OccursAt(s[1..], pat, k) <==> OccursAt(s, pat, k + 1)
  {
    if k + 1 + |pat| <= |s| {
      assert s[1..][k..k + |pat|] == s[k + 1..k + 1 + |pat|];
    }
  }

  lemma OccursAtChar(s: string, c: char, k: nat)
    ensures OccursAt(s, [c], k) <==> k < |s| && s[k] == c
  {
    if k < |s| {
      assert s[k..k + 1] == [s[k]];
    }
  }

  /** `String.prototype.indexOf`: the first index at which `pat` occurs. */
  function IndexOf(s: string, pat: string): (r: Option<nat>)
    ensures r.Some? ==> OccursAt(s, pat, r.value)
    ensures r.Some? ==> forall k: nat :: k < r.value ==> !OccursAt(s, pat, k)
    ensures r.None? ==> forall k: nat :: !OccursAt(s, pat, k)
    decreases |s|
  {
    if |pat| > |s| then None
    else if s[..|pat|] == pat then Some(0)
    else
      match IndexOf(s[1..], pat)
      case None =>
        assert forall k: nat :: !OccursAt(s, pat, k) by {
          forall k: nat ensures !OccursAt(s, pat, k) {
            if k > 0 { OccursShift(s, pat, k - 1); }
          }
        }
        None
      case Some(k) =>
        OccursShift(s, pat, k);
        assert forall k': nat :: k' < k + 1 ==> !OccursAt(s, pat, k') by {
          forall k': nat | k' < k + 1 ensures !OccursAt(s, pat, k') {
            if k' > 0 { OccursShift(s, pat, k' - 1); }
          }
        }
        Some(k + 1)
  }

  /** `String.prototype.includes`. */
  function Contains(s: string, sub: string): (r: bool)
    ensures r <==> exists k: nat :: OccursAt(s, sub, k)
  {
    IndexOf(s, sub).Some?
  }

  /** `String.prototype.startsWith`. */
  predicate StartsWith(s: string, prefix: string) {
    |prefix| <= |s| && s[..|prefix|] == prefix
  }

  /** `String.prototype.endsWith`. */
  predicate EndsWith(s: string, suffix: string) {
    |suffix| <= |s| && s[|s| - |suffix|..] == suffix
  }

  /** `String.prototype.replace` with a string pattern: only the first occurrence is replaced. */
  function ReplaceFirst(s: string, pat: string, rep: string): string {
    match IndexOf(s, pat)
    case None => s
    case Some(i) => s[..i] + rep + s[i + |pat|..]
  }

  /** When `s` starts with `pat`, replacing the first `pat` by nothing drops exactly that prefix. */
  lemma ReplacePrefix(s: string, pat: string)
    requires StartsWith(s, pat)
    ensures ReplaceFirst(s, pat, "") == s[|pat|..]
  {
    assert OccursAt(s, pat, 0);
  }

  /** `s.split("\n")`: the pieces between line feeds; there is always at least one. */
  function SplitLines(s: string): (r: seq<string>)
    ensures |r| >= 1
    ensures forall i :: 0 <= i < |r| ==> '\n' !in r[i]
    decreases |s|
  {
    match IndexOf(s, "\n")
    case None =>
      assert forall k :: 0 <= k < |s| ==> s[k] != '\n' by {
        forall k | 0 <= k < |s| ensures s[k] != '\n' {
          OccursAtChar(s, '\n', k);
        }
      }
      [s]
    case Some(i) =>
      assert forall k :: 0 <= k < i ==> s[k] != '\n' by {
        forall k | 0 <= k < i ensures s[k] != '\n' {
          OccursAtChar(s, '\n', k);
        }
      }
      assert forall k :: 0 <= k < i ==> s[..i][k] == s[k];
      [s[..i]] + SplitLines(s[i + 1..])
  }

  /** `lines.join("\n")`. */
  function JoinLines(lines: seq<string>): string {
    if |lines| == 0 then ""
    else if |lines| == 1 then lines[0]
    else lines[0] + "\n" + JoinLines(lines[1..])
  }

  /** Joining what `split("\n")` returns gives back the original string. */
  lemma {:induction false} JoinSplit(s: string)
    ensures JoinLines(SplitLines(s)) == s
    decreases |s|
  {
    match IndexOf(s, "\n")
    case None =>
    case Some(i) =>
      OccursAtChar(s, '\n', i);
      JoinSplit(s[i + 1..]);
      assert s == s[..i] + "\n" + s[i + 1..];
  }

  /** Splitting joined lines that hold no line feed gives back the lines. */
  lemma {:induction false} SplitJoin(lines: seq<string>)
    requires |lines| >= 1
    requires forall i :: 0 <= i < |lines| ==> '\n' !in lines[i]
    ensures SplitLines(JoinLines(lines)) == lines
  {
    var s := JoinLines(lines);
    if |lines| == 1 {
      forall k: nat ensures !OccursAt(s, "\n", k) {
        OccursAtChar(s, '\n', k);
      }
    } else {
      var h := lines[0];
      var rest := JoinLines(lines[1..]);
      assert s == h + "\n" + rest;
      OccursAtChar(s, '\n', |h|);
      forall k: nat | k < |h| ensures !OccursAt(s, "\n", k) {
        OccursAtChar(s, '\n', k);
        assert s[k] == h[k];
      }
      assert IndexOf(s, "\n") == Some(|h|);
      assert s[..|h|] == h;
      assert s[|h| + 1..] == rest;
      SplitJoin(lines[1..]);
    }
  }

  /** `toLowerCase` on one character (ASCII letters only). */
  function LowerChar(c: char): char {
    if 'A' <= c <= 'Z' then (c as int + 32) as char else c
  }

  /** `toLowerCase` (ASCII letters only). */
  function Lower(s: string): (r: string)
    ensures |r| == |s|
  {
    seq(|s|, i requires 0 <= i < |s| => LowerChar(s[i]))
  }

  /** Lower-casing twice is the same as lower-casing once. */
  lemma LowerIdempotent(s: string)
    ensures Lower(Lower(s)) == Lower(s)
  {
  }
}
