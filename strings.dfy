/**
  The JavaScript string operations the three extensions use: `trim`,
  `toLowerCase` (ASCII), the slug rule for CSS class names, `split('\n')[0]`,
  `indexOf`, `lastIndexOf`, `includes`, global-regex occurrence counts and
  `Array.prototype.join`.
 */
module Strings {

  /** Characters of the regex class `\s`, which are also those `String.prototype.trim` removes. */
  predicate IsJsSpace(c: char) {
    || c == ' ' || c == '\t' || c == '\n' || c == '\U{000B}' || c == '\U{000C}' || c == '\r'
    || c == '\U{00A0}' || c == '\U{1680}' || ('\U{2000}' <= c <= '\U{200A}')
    || c == '\U{2028}' || c == '\U{2029}' || c == '\U{202F}' || c == '\U{205F}'
    || c == '\U{3000}' || c == '\U{FEFF}'
  }

  /** Removes leading `\s` characters. */
  function TrimStart(s: string): (r: string)
    ensures |r| <= |s| && r == s[|s| - |r|..]
    ensures forall i :: 0 <= i < |s| - |r| ==> IsJsSpace(s[i])
    ensures r == [] || !IsJsSpace(r[0])
  {
    if s != [] && IsJsSpace(s[0]) then TrimStart(s[1..]) else s
  }

  /** Removes trailing `\s` characters. */
  function TrimEnd(s: string): (r: string)
    ensures |r| <= |s| && r == s[..|r|]
    ensures forall i :: |r| <= i < |s| ==> IsJsSpace(s[i])
    ensures r == [] || !IsJsSpace(r[|r| - 1])
  {
    if s != [] && IsJsSpace(s[|s| - 1]) then TrimEnd(s[..|s| - 1]) else s
  }

  /** `s.trim()`. */
  function Trim(s: string): (r: string)
    ensures |r| <= |s|
    ensures r == [] || (!IsJsSpace(r[0]) && !IsJsSpace(r[|r| - 1]))
  {
    TrimEnd(TrimStart(s))
  }

  predicate IsAsciiUpper(c: char) {
    'A' <= c <= 'Z'
  }

  function LowerChar(c: char): (d: char)
    ensures !IsAsciiUpper(d)
    ensures !IsAsciiUpper(c) ==> d == c
  {
    if IsAsciiUpper(c) then (c as int + 32) as char else c
  }

  /** `s.toLowerCase()` restricted to ASCII letters. */
  function ToLowerAscii(s: string): (r: string)
    ensures |r| == |s|
    ensures forall i :: 0 <= i < |s| ==> r[i] == LowerChar(s[i])
  {
    seq(|s|, i requires 0 <= i < |s| => LowerChar(s[i]))
  }

  /** `s.replace(/ /g, '-')`. */
  function SpacesToHyphens(s: string): (r: string)
    ensures |r| == |s|
    ensures forall i :: 0 <= i < |s| ==> r[i] == if s[i] == ' ' then '-' else s[i]
  {
    seq(|s|, i requires 0 <= i < |s| => if s[i] == ' ' then '-' else s[i])
  }

  /** The regex class `\w` without the `u` flag. */
  predicate IsWordChar(c: char) {
    'a' <= c <= 'z' || 'A' <= c <= 'Z' || '0' <= c <= '9' || c == '_'
  }

  /** The characters a slug may contain: `[a-z0-9_-]`. */
  predicate IsSlugChar(c: char) {
    'a' <= c <= 'z' || '0' <= c <= '9' || c == '_' || c == '-'
  }

  /** `s.replace(/[^\w-]+/g, '')`: keeps word characters and hyphens, in order. */
  function KeepWordAndHyphen(s: string): (r: string)
    ensures |r| <= |s|
    ensures forall i :: 0 <= i < |r| ==> IsWordChar(r[i]) || r[i] == '-'
    ensures forall i :: 0 <= i < |r| ==> r[i] in s
    ensures (forall i :: 0 <= i < |s| ==> IsWordChar(s[i]) || s[i] == '-') ==> r == s
  {
    if s == [] then []
    else (if IsWordChar(s[0]) || s[0] == '-' then [s[0]] else []) + KeepWordAndHyphen(s[1..])
  }

  /** The filter works character by character: it keeps each word character and hyphen, in order, and drops the rest. */
  lemma {:induction false} KeepWordAndHyphenConcat(a: string, b: string)
    ensures KeepWordAndHyphen(a + b) == KeepWordAndHyphen(a) + KeepWordAndHyphen(b)
    decreases |a|
  {
    if a != [] {
      var h := if IsWordChar(a[0]) || a[0] == '-' then [a[0]] else [];
      assert (a + b)[0] == a[0];
      assert (a + b)[1..] == a[1..] + b;
      assert KeepWordAndHyphen(a + b) == h + KeepWordAndHyphen(a[1..] + b);
      assert KeepWordAndHyphen(a) == h + KeepWordAndHyphen(a[1..]);
      KeepWordAndHyphenConcat(a[1..], b);
    } else {
      assert a + b == b;
    }
  }

  /** One character on its own is kept exactly when it is a word character or a hyphen. */
  lemma KeepWordAndHyphenChar(c: char)
    ensures KeepWordAndHyphen([c]) == if IsWordChar(c) || c == '-' then [c] else []
  {
    assert [c][1..] == [];
  }

  /** `s.trim().toLowerCase().replace(/ /g, '-')`: the file-name slug of a media embed. */
  function Hyphenate(s: string): (r: string)
    ensures forall i :: 0 <= i < |r| ==> !IsAsciiUpper(r[i]) && r[i] != ' '
  {
    SpacesToHyphens(ToLowerAscii(Trim(s)))
  }

  /**
    The slug rule of the CSS class names, written out the same way at each
    place it is used: trim, lower-case, spaces to hyphens, then drop every
    character that is neither a word character nor a hyphen.
   */
  function Slug(s: string): (r: string)
    ensures forall i :: 0 <= i < |r| ==> IsSlugChar(r[i])
  {
    var h := Hyphenate(s);
    var r := KeepWordAndHyphen(h);
    assert forall c :: c in h ==> !IsAsciiUpper(c);
    r
  }

  /** A slug is its own slug: the rule is idempotent. */
  lemma SlugIdempotent(s: string)
    ensures Slug(Slug(s)) == Slug(s)
  {
    var r := Slug(s);
    SlugCharsAreFixed(r);
  }

  /** Every step of the slug rule leaves a string of slug characters unchanged. */
  lemma SlugCharsAreFixed(r: string)
    requires forall i :: 0 <= i < |r| ==> IsSlugChar(r[i])
    ensures Slug(r) == r
  {
    assert r == [] || !IsJsSpace(r[0]);
    assert TrimStart(r) == r;
    assert r == [] || !IsJsSpace(r[|r| - 1]);
    assert TrimEnd(r) == r;
    var l := ToLowerAscii(r);
    assert l == r;
    var h := SpacesToHyphens(l);
    assert h == r;
  }

  /** `s.split('\n')[0]`: the text before the first line feed. */
  function FirstLine(s: string): (r: string)
    ensures r <= s && '\n' !in r
    ensures |r| < |s| ==> s[|r|] == '\n'
  {
    if s == [] || s[0] == '\n' then [] else [s[0]] + FirstLine(s[1..])
  }

  /** Whatever follows the first line feed does not change the first line. */
  lemma {:induction false} FirstLineOfJoin(line: string, rest: string)
    requires '\n' !in line
    ensures FirstLine(line + "\n" + rest) == line
    ensures FirstLine(line) == line
  {
    if line != [] {
      assert (line + "\n" + rest)[1..] == line[1..] + "\n" + rest;
      FirstLineOfJoin(line[1..], rest);
    } else {
      assert (line + "\n" + rest)[0] == '\n';
    }
  }

  /** `p` occurs in `s` at index `i`. */
  predicate StartsAt(s: string, i: int, p: string) {
    0 <= i && i + |p| <= |s| && s[i..i + |p|] == p
  }

  /** `s.indexOf(p, from)`: the first occurrence of `p` at or after `from`, or -1. */
  function IndexOf(s: string, p: string, from: nat): (r: int)
    ensures r == -1 || (from <= r && StartsAt(s, r, p))
    ensures forall j :: from <= j && (r == -1 || j < r) ==> !StartsAt(s, j, p)
    decreases |s| - from
  {
    if from + |p| > |s| then -1
    else if s[from..from + |p|] == p then from
    else IndexOf(s, p, from + 1)
  }

  /** `s.includes(p)`. */
  predicate Includes(s: string, p: string) {
    IndexOf(s, p, 0) >= 0
  }

  lemma IncludesIff(s: string, p: string)
    ensures Includes(s, p) <==> exists j :: StartsAt(s, j, p)
  {
  }

  /** The last occurrence of `p` at or before `k`, or -1. */
  function LastAtOrBefore(s: string, p: string, k: int): (r: int)
    ensures r == -1 || (r <= k && StartsAt(s, r, p))
    ensures forall j :: r < j <= k ==> !StartsAt(s, j, p)
    decreases k + 1
  {
    if k < 0 then -1
    else if StartsAt(s, k, p) then k
    else LastAtOrBefore(s, p, k - 1)
  }

  /** `s.lastIndexOf(p)`. */
  function LastIndexOf(s: string, p: string): (r: int)
    ensures r == -1 || StartsAt(s, r, p)
    ensures forall j :: r < j ==> !StartsAt(s, j, p)
  {
    LastAtOrBefore(s, p, |s|)
  }

  /**
    `(s.match(/p/g) || []).length` for a literal pattern: the number of
    non-overlapping occurrences found scanning left to right.
   */
  function CountMatches(s: string, p: string): (n: nat)
    requires |p| > 0
    ensures n * |p| <= |s|
    decreases |s|
  {
    if |s| < |p| then 0
    else if s[..|p|] == p then 1 + CountMatches(s[|p|..], p)
    else CountMatches(s[1..], p)
  }

  /** The scan finds some occurrence exactly when the pattern occurs somewhere. */
  lemma {:induction false} CountMatchesPositive(s: string, p: string)
    requires |p| > 0
    ensures CountMatches(s, p) > 0 <==> exists j :: StartsAt(s, j, p)
    decreases |s|
  {
    if |s| < |p| {
      assert forall j :: !StartsAt(s, j, p);
    } else if s[..|p|] == p {
      assert StartsAt(s, 0, p);
    } else {
      CountMatchesPositive(s[1..], p);
      assert !StartsAt(s, 0, p);
      forall j | StartsAt(s, j, p) ensures StartsAt(s[1..], j - 1, p) {
        assert s[1..][j - 1..j - 1 + |p|] == s[j..j + |p|];
      }
      forall j | StartsAt(s[1..], j, p) ensures StartsAt(s, j + 1, p) {
        assert s[1..][j..j + |p|] == s[j + 1..j + 1 + |p|];
      }
    }
  }

  /** There are no occurrences to count in a text that lacks the pattern's first character. */
  lemma CountMatchesAbsent(s: string, p: string)
    requires |p| > 0 && p[0] !in s
    ensures CountMatches(s, p) == 0
  {
    CountMatchesPositive(s, p);
    OccurrenceHasHead(s, p);
  }

  lemma OccurrenceHasHead(s: string, p: string)
    requires |p| > 0
    ensures forall j :: StartsAt(s, j, p) ==> p[0] in s
  {
    forall j | StartsAt(s, j, p) ensures p[0] in s {
      assert s[j] == s[j..j + |p|][0];
    }
  }

  /** `parts.join(sep)`. */
  function Join(parts: seq<string>, sep: string): string
  {
    if |parts| == 0 then ""
    else if |parts| == 1 then parts[0]
    else parts[0] + sep + Join(parts[1..], sep)
  }
}
