/**
  The attribute extension of src/lib/wikiattr.ts: the context check
  `isTop`, the per-instance attribute collection, the pre-pass that collects
  attributes and cuts their text out of the markdown, the attribute box and
  the post-pass that prepends it.

  The attribute and link patterns belong to a library this model does not
  contain; their matches are inputs (`AttrMatch`), tied to the markdown by
  `MatchesOf`.
 */
module WikiAttr {
  import opened Wrappers
  import opened Strings
  import opened Html

  // ---------------------------------------------------------------------------
  // isTop: the rules, as the source evaluates them
  // ---------------------------------------------------------------------------

  const Fence := "```"
  const Backtick := "`"

  /** The number of leading ' ' characters, which is what `^ *` consumes before a marker. */
  function LeadingSpaces(s: string): (n: nat)
    ensures n <= |s|
    ensures forall i :: 0 <= i < n ==> s[i] == ' '
    ensures n < |s| ==> s[n] != ' '
  {
    if s != [] && s[0] == ' ' then 1 + LeadingSpaces(s[1..]) else 0
  }

  /** The regex class `\d` without the `u` flag. */
  predicate IsDigit(c: char) {
    '0' <= c <= '9'
  }

  function LeadingDigits(s: string): (n: nat)
    ensures n <= |s|
    ensures forall i :: 0 <= i < n ==> IsDigit(s[i])
    ensures n < |s| ==> !IsDigit(s[n])
  {
    if s != [] && IsDigit(s[0]) then 1 + LeadingDigits(s[1..]) else 0
  }

  /** `/^ *[-*+]\s/.test(line)` */
  predicate BulletItem(line: string) {
    var k := LeadingSpaces(line);
    k + 1 < |line| && (line[k] == '-' || line[k] == '*' || line[k] == '+') && IsJsSpace(line[k + 1])
  }

  /** `/^ *\d+[.)]\s/.test(line)` */
  predicate NumberedItem(line: string) {
    var k := LeadingSpaces(line);
    var d := LeadingDigits(line[k..]);
    0 < d && k + d + 1 < |line| && (line[k + d] == '.' || line[k + d] == ')') && IsJsSpace(line[k + d + 1])
  }

  /** `/^ *>\s/.test(line)` */
  predicate Blockquote(line: string) {
    var k := LeadingSpaces(line);
    k + 1 < |line| && line[k] == '>' && IsJsSpace(line[k + 1])
  }

  /** `/^ {4,}|\t/.test(line)`: four leading spaces, or a tab anywhere in the line. */
  predicate IndentedCode(line: string) {
    LeadingSpaces(line) >= 4 || Includes(line, "\t")
  }

  /** The fenced-code test: a fence somewhere, one before the position, one after it, and an odd count before it. */
  predicate InFencedCode(content: string, position: nat)
    requires position <= |content|
  {
    && Includes(content, Fence)
    && LastIndexOf(content[..position], Fence) >= 0
    && IndexOf(content, Fence, position) > position
    && CountMatches(content[..position], Fence) % 2 != 0
  }

  /** The code-span test: an odd number of backticks before the position and at least one from it on. */
  predicate InCodeSpan(content: string, position: nat)
    requires position <= |content|
  {
    && Includes(content, Backtick)
    && CountMatches(content[..position], Backtick) % 2 != 0
    && CountMatches(content[position..], Backtick) > 0
  }

  /**
    `isTop(content, position, matchedText)`: whether an attribute match sits
    at the document's top level. Only the first line of the matched text is
    inspected; the code tests look at the whole document around the position.
   */
  function IsTop(content: string, position: int, matchedText: string): (r: bool)
    ensures r ==> 0 <= position < |content|
    ensures r ==> LeadingSpaces(FirstLine(matchedText)) < 4
  {
    if position < 0 || position >= |content| then false
    else
      var firstLine := FirstLine(matchedText);
      if BulletItem(firstLine) then false
      else if NumberedItem(firstLine) then false
      else if Blockquote(firstLine) then false
      else if IndentedCode(firstLine) then false
      else if InFencedCode(content, position) then false
      else if InCodeSpan(content, position) then false
      else true
  }

  // ---------------------------------------------------------------------------
  // isTop: what each rule means, stated independently
  // ---------------------------------------------------------------------------

  ghost predicate AllSpaces(s: string) {
    forall i :: 0 <= i < |s| ==> s[i] == ' '
  }

  ghost predicate AllDigits(s: string) {
    forall i :: 0 <= i < |s| ==> IsDigit(s[i])
  }

  /** The line begins with optional spaces, then `-`, `*` or `+`, then a `\s` character. */
  ghost predicate StartsWithBullet(line: string) {
    exists k :: 0 <= k && k + 1 < |line| && AllSpaces(line[..k])
      && (line[k] == '-' || line[k] == '*' || line[k] == '+') && IsJsSpace(line[k + 1])
  }

  /** The line begins with optional spaces, one or more digits, `.` or `)`, then a `\s` character. */
  ghost predicate StartsWithNumber(line: string) {
    exists k, j :: 0 <= k < j && j + 1 < |line| && AllSpaces(line[..k]) && AllDigits(line[k..j])
      && (line[j] == '.' || line[j] == ')') && IsJsSpace(line[j + 1])
  }

  /** The line begins with optional spaces, then `>`, then a `\s` character. */
  ghost predicate StartsWithQuote(line: string) {
    exists k :: 0 <= k && k + 1 < |line| && AllSpaces(line[..k]) && line[k] == '>' && IsJsSpace(line[k + 1])
  }

  /** The line begins with four spaces or holds a tab anywhere. */
  ghost predicate IndentedOrTabbed(line: string) {
    (|line| >= 4 && AllSpaces(line[..4])) || '\t' in line
  }

  /** An odd number of fences before the position, none starting at it, and one starting after it. */
  ghost predicate InsideFence(content: string, position: nat)
    requires position <= |content|
  {
    && CountMatches(content[..position], Fence) % 2 == 1
    && !StartsAt(content, position, Fence)
    && exists j :: position < j && StartsAt(content, j, Fence)
  }

  /** An odd number of backticks before the position and a backtick at or after it. */
  ghost predicate InsideCodeSpan(content: string, position: nat)
    requires position <= |content|
  {
    && CountMatches(content[..position], Backtick) % 2 == 1
    && exists j :: position <= j < |content| && content[j] == '`'
  }

  lemma LeadingSpacesExact(line: string, k: nat)
    requires k < |line| && AllSpaces(line[..k]) && line[k] != ' '
    ensures LeadingSpaces(line) == k
  {
    assert forall i :: 0 <= i < k ==> line[i] == line[..k][i];
  }

  lemma LeadingDigitsExact(s: string, d: nat)
    requires d < |s| && AllDigits(s[..d]) && !IsDigit(s[d])
    ensures LeadingDigits(s) == d
  {
    assert forall i :: 0 <= i < d ==> s[i] == s[..d][i];
  }

  lemma BulletItemIff(line: string)
    ensures BulletItem(line) <==> StartsWithBullet(line)
  {
    var k := LeadingSpaces(line);
    assert AllSpaces(line[..k]);
    if StartsWithBullet(line) {
      var k' :| 0 <= k' && k' + 1 < |line| && AllSpaces(line[..k'])
        && (line[k'] == '-' || line[k'] == '*' || line[k'] == '+') && IsJsSpace(line[k' + 1]);
      LeadingSpacesExact(line, k');
    }
  }

  lemma NumberedItemIff(line: string)
    ensures NumberedItem(line) <==> StartsWithNumber(line)
  {
    if NumberedItem(line) {
      NumberedItemWitness(line);
    }
    if StartsWithNumber(line) {
      NumberedItemFromNumber(line);
    }
  }

  lemma NumberedItemFromNumber(line: string)
    requires StartsWithNumber(line)
    ensures NumberedItem(line)
  {
    var k, j :| 0 <= k < j && j + 1 < |line| && AllSpaces(line[..k]) && AllDigits(line[k..j])
      && (line[j] == '.' || line[j] == ')') && IsJsSpace(line[j + 1]);
    NumberedItemFromWitness(line, k, j);
  }

  lemma NumberedItemWitness(line: string)
    requires NumberedItem(line)
    ensures StartsWithNumber(line)
  {
    var k := LeadingSpaces(line);
    var rest := line[k..];
    var d := LeadingDigits(rest);
    var j := k + d;
    assert AllSpaces(line[..k]);
    assert line[k..j] == rest[..d];
    assert AllDigits(line[k..j]);
    assert line[j] == rest[d];
  }

  lemma NumberedItemFromWitness(line: string, k: nat, j: nat)
    requires k < j && j + 1 < |line| && AllSpaces(line[..k]) && AllDigits(line[k..j])
    requires (line[j] == '.' || line[j] == ')') && IsJsSpace(line[j + 1])
    ensures NumberedItem(line)
  {
    assert line[k] == line[k..j][0];
    LeadingSpacesExact(line, k);
    var rest := line[k..];
    assert rest[..j - k] == line[k..j];
    assert rest[j - k] == line[j];
    LeadingDigitsExact(rest, j - k);
  }

  lemma BlockquoteIff(line: string)
    ensures Blockquote(line) <==> StartsWithQuote(line)
  {
    var k := LeadingSpaces(line);
    assert AllSpaces(line[..k]);
    if StartsWithQuote(line) {
      var k' :| 0 <= k' && k' + 1 < |line| && AllSpaces(line[..k']) && line[k'] == '>' && IsJsSpace(line[k' + 1]);
      LeadingSpacesExact(line, k');
    }
  }

  lemma IndentedCodeIff(line: string)
    ensures IndentedCode(line) <==> IndentedOrTabbed(line)
  {
    IncludesIff(line, "\t");
    forall j | StartsAt(line, j, "\t") ensures line[j] == '\t' {
      assert line[j..j + 1][0] == line[j];
    }
    forall j | 0 <= j < |line| && line[j] == '\t' ensures StartsAt(line, j, "\t") {
      assert line[j..j + 1] == [line[j]];
    }
    if |line| >= 4 && AllSpaces(line[..4]) {
      assert forall i :: 0 <= i < 4 ==> line[i] == line[..4][i];
    }
  }

  /** An occurrence in a prefix is an occurrence in the whole text. */
  lemma PrefixOccurrence(content: string, position: nat, p: string)
    requires position <= |content|
    ensures forall j :: StartsAt(content[..position], j, p) ==> StartsAt(content, j, p)
  {
    forall j | StartsAt(content[..position], j, p) ensures StartsAt(content, j, p) {
      assert content[..position][j..j + |p|] == content[j..j + |p|];
    }
  }

  lemma InFencedCodeIff(content: string, position: nat)
    requires position <= |content|
    ensures InFencedCode(content, position) <==> InsideFence(content, position)
  {
    var before := content[..position];
    CountMatchesPositive(before, Fence);
    PrefixOccurrence(content, position, Fence);
    IncludesIff(content, Fence);
  }

  lemma InCodeSpanIff(content: string, position: nat)
    requires position <= |content|
    ensures InCodeSpan(content, position) <==> InsideCodeSpan(content, position)
  {
    var before := content[..position];
    var after := content[position..];
    CountMatchesPositive(before, Backtick);
    CountMatchesPositive(after, Backtick);
    PrefixOccurrence(content, position, Backtick);
    IncludesIff(content, Backtick);
    forall j | StartsAt(after, j, Backtick) ensures content[position + j] == '`' {
      assert after[j..j + 1][0] == content[position + j];
    }
    forall j | position <= j < |content| && content[j] == '`' ensures StartsAt(after, j - position, Backtick) {
      assert after[j - position..j - position + 1] == [content[j]];
    }
  }

  /**
    `isTop` accepts exactly when the position is inside the document, the
    first line of the matched text starts no list item, blockquote or
    indented code and holds no tab, and the position is neither inside a
    fence nor inside a code span.
   */
  lemma IsTopIff(content: string, position: int, matchedText: string)
    ensures IsTop(content, position, matchedText) <==>
      && 0 <= position < |content|
      && var line := FirstLine(matchedText);
      && !StartsWithBullet(line)
      && !StartsWithNumber(line)
      && !StartsWithQuote(line)
      && !IndentedOrTabbed(line)
      && !InsideFence(content, position)
      && !InsideCodeSpan(content, position)
  {
    var line := FirstLine(matchedText);
    BulletItemIff(line);
    NumberedItemIff(line);
    BlockquoteIff(line);
    IndentedCodeIff(line);
    if 0 <= position < |content| {
      InFencedCodeIff(content, position);
      InCodeSpanIff(content, position);
    }
  }

  /** Without any backtick in the document, only the first-line rules and the range can reject. */
  lemma IsTopWithoutBackticks(content: string, position: int, matchedText: string)
    requires '`' !in content
    ensures IsTop(content, position, matchedText) <==>
      && 0 <= position < |content|
      && var line := FirstLine(matchedText);
      && !StartsWithBullet(line) && !StartsWithNumber(line) && !StartsWithQuote(line)
      && !IndentedOrTabbed(line)
  {
    IsTopIff(content, position, matchedText);
    if 0 <= position < |content| {
      var before := content[..position];
      assert '`' !in before;
      CountMatchesAbsent(before, Fence);
      CountMatchesAbsent(before, Backtick);
    }
  }

  /** Only the first line of the matched text matters: what follows the first line feed is never inspected. */
  lemma IsTopReadsFirstLineOnly(content: string, position: int, line: string, rest: string)
    requires '\n' !in line
    ensures IsTop(content, position, line + "\n" + rest) == IsTop(content, position, line)
  {
    FirstLineOfJoin(line, rest);
  }

  // ---------------------------------------------------------------------------
  // The attribute collection
  // ---------------------------------------------------------------------------

  /**
    `AttributeCollection`: the types in the order they were first added (the
    iteration order of the object's keys) and the targets stored under each.
   */
  datatype Collection = Collection(types: seq<string>, targets: map<string, seq<string>>)

  const EmptyCollection := Collection([], map[])

  /** Each type listed once, exactly the keys of the map, each with at least one target. */
  ghost predicate WellFormed(c: Collection) {
    && (forall i, j :: 0 <= i < j < |c.types| ==> c.types[i] != c.types[j])
    && (forall t :: t in c.targets <==> t in c.types)
    && (forall t :: t in c.targets ==> c.targets[t] != [])
  }

  /** The targets stored under `t`, or none. */
  function Targets(c: Collection, t: string): seq<string> {
    if t in c.targets then c.targets[t] else []
  }

  /** `addToCollection(t, f)` on the collection's value. */
  function Added(c: Collection, t: string, f: string): (r: Collection)
    ensures Targets(r, t) == Targets(c, t) + [f]
    ensures forall u :: u != t ==> Targets(r, u) == Targets(c, u)
    ensures r.types == if t in c.targets then c.types else c.types + [t]
    ensures WellFormed(c) ==> WellFormed(r)
  {
    if t in c.targets then c.(targets := c.targets[t := c.targets[t] + [f]])
    else Collection(c.types + [t], c.targets[t := [f]])
  }

  /** The inner loop of the pre-pass: every target of one match added under one type, in order. */
  function AddAll(c: Collection, t: string, fs: seq<string>): (r: Collection)
    ensures Targets(r, t) == Targets(c, t) + fs
    ensures forall u :: u != t ==> Targets(r, u) == Targets(c, u)
    ensures r.types == if fs == [] || t in c.targets then c.types else c.types + [t]
    ensures WellFormed(c) ==> WellFormed(r)
    decreases |fs|
  {
    if fs == [] then c
    else
      var r := Added(AddAll(c, t, fs[..|fs| - 1]), t, fs[|fs| - 1]);
      assert fs[..|fs| - 1] + [fs[|fs| - 1]] == fs;
      r
  }

  lemma AddAllSnoc(c: Collection, t: string, fs: seq<string>, j: nat)
    requires j < |fs|
    ensures AddAll(c, t, fs[..j + 1]) == Added(AddAll(c, t, fs[..j]), t, fs[j])
  {
    assert fs[..j + 1][..j] == fs[..j];
  }

  lemma PairsSnoc(log: seq<(string, string)>, t: string, fs: seq<string>, j: nat)
    requires j < |fs|
    ensures log + Pairs(t, fs[..j + 1]) == log + Pairs(t, fs[..j]) + [(t, fs[j])]
  {
    assert Pairs(t, fs[..j + 1]) == Pairs(t, fs[..j]) + [(t, fs[j])];
  }

  // ---------------------------------------------------------------------------
  // The pre-pass: which matches count, what they add, what is cut out
  // ---------------------------------------------------------------------------

  /**
    One match of the attribute pattern: its offset, its text, its first
    group (the type, untrimmed) and the first group of every match of the
    single-link pattern inside the text, in order.
   */
  datatype AttrMatch = AttrMatch(start: nat, text: string, attrType: string, filenames: seq<string>)

  /**
    What a global regex scan over `markdown` yields: non-empty matches whose
    text is the markdown at their offset, in increasing, non-overlapping order.
    (A zero-length match would make the scan loop forever.)
   */
  ghost predicate MatchesOf(markdown: string, ms: seq<AttrMatch>) {
    && (forall i :: 0 <= i < |ms| ==> Located(markdown, ms[i]))
    && (forall i, j :: 0 <= i < j < |ms| ==> Precedes(ms[i], ms[j]))
  }

  /** The match is non-empty and its text is the markdown at its offset. */
  ghost predicate Located(markdown: string, m: AttrMatch) {
    0 < |m.text| && m.start + |m.text| <= |markdown| && markdown[m.start..m.start + |m.text|] == m.text
  }

  /** The first match ends at or before the second begins. */
  predicate Precedes(a: AttrMatch, b: AttrMatch) {
    a.start + |a.text| <= b.start
  }

  /** The matches `isTop` accepts, in scan order. */
  function ValidMatches(markdown: string, ms: seq<AttrMatch>): (vs: seq<AttrMatch>)
    ensures |vs| <= |ms|
    decreases |ms|
  {
    if ms == [] then []
    else
      var m := ms[|ms| - 1];
      ValidMatches(markdown, ms[..|ms| - 1]) + (if IsTop(markdown, m.start, m.text) then [m] else [])
  }

  /** The accepted matches are exactly the matches `isTop` accepts. */
  lemma {:induction false} ValidMatchesMembers(markdown: string, ms: seq<AttrMatch>)
    ensures forall m :: m in ValidMatches(markdown, ms) <==> m in ms && IsTop(markdown, m.start, m.text)
    decreases |ms|
  {
    if ms != [] {
      ValidMatchesMembers(markdown, ms[..|ms| - 1]);
      assert ms == ms[..|ms| - 1] + [ms[|ms| - 1]];
    }
  }

  /** Dropping matches keeps the rest increasing and non-overlapping. */
  lemma {:induction false} ValidMatchesOrdered(markdown: string, ms: seq<AttrMatch>)
    requires MatchesOf(markdown, ms)
    ensures MatchesOf(markdown, ValidMatches(markdown, ms))
    decreases |ms|
  {
    if ms != [] {
      var init := ms[..|ms| - 1];
      var m := ms[|ms| - 1];
      assert MatchesOf(markdown, init);
      ValidMatchesOrdered(markdown, init);
      ValidMatchesMembers(markdown, init);
      ValidMatchesMembers(markdown, ms);
      var vi := ValidMatches(markdown, init);
      var vs := ValidMatches(markdown, ms);
      assert vs == vi + (if IsTop(markdown, m.start, m.text) then [m] else []);
      forall i, j | 0 <= i < j < |vs| ensures Precedes(vs[i], vs[j]) {
        if j >= |vi| {
          assert vs[i] in init;
          var k :| 0 <= k < |init| && init[k] == vs[i];
          assert ms[k] == vs[i] && ms[|ms| - 1] == vs[j];
        }
      }
      forall i | 0 <= i < |vs| ensures Located(markdown, vs[i]) {
        assert vs[i] in ms;
      }
    }
  }

  lemma ValidMatchesSnoc(markdown: string, ms: seq<AttrMatch>, i: nat)
    requires i < |ms|
    ensures IsTop(markdown, ms[i].start, ms[i].text) ==>
      ValidMatches(markdown, ms[..i + 1]) == ValidMatches(markdown, ms[..i]) + [ms[i]]
    ensures !IsTop(markdown, ms[i].start, ms[i].text) ==>
      ValidMatches(markdown, ms[..i + 1]) == ValidMatches(markdown, ms[..i])
  {
    assert ms[..i + 1][..i] == ms[..i];
    assert ValidMatches(markdown, ms[..i]) + [] == ValidMatches(markdown, ms[..i]);
  }

  /** The collection the pre-pass builds from the accepted matches. */
  function Collect(vs: seq<AttrMatch>): (c: Collection)
    ensures WellFormed(c)
    decreases |vs|
  {
    if vs == [] then EmptyCollection
    else
      var m := vs[|vs| - 1];
      AddAll(Collect(vs[..|vs| - 1]), Trim(m.attrType), m.filenames)
  }

  /** All targets of the given matches whose trimmed type is `t`, in order. */
  function TargetsOfType(vs: seq<AttrMatch>, t: string): seq<string>
    decreases |vs|
  {
    if vs == [] then []
    else
      var m := vs[|vs| - 1];
      TargetsOfType(vs[..|vs| - 1], t) + (if Trim(m.attrType) == t then m.filenames else [])
  }

  /** The elements of `xs` in the order of their first occurrence. */
  function FirstOccurrences(xs: seq<string>): seq<string>
    decreases |xs|
  {
    if xs == [] then []
    else
      var init := FirstOccurrences(xs[..|xs| - 1]);
      if xs[|xs| - 1] in xs[..|xs| - 1] then init else init + [xs[|xs| - 1]]
  }

  /** `(type, target)` for each target. */
  function Pairs(t: string, fs: seq<string>): seq<(string, string)> {
    seq(|fs|, i requires 0 <= i < |fs| => (t, fs[i]))
  }

  /** The `addAttr` calls of the pre-pass, in order. */
  function AttrCalls(vs: seq<AttrMatch>): seq<(string, string)>
    decreases |vs|
  {
    if vs == [] then []
    else
      var m := vs[|vs| - 1];
      AttrCalls(vs[..|vs| - 1]) + Pairs(Trim(m.attrType), m.filenames)
  }

  /** What one more accepted match adds to the collection, the call log and the spans. */
  lemma AcceptedStep(vs: seq<AttrMatch>, m: AttrMatch, log: seq<(string, string)>)
    ensures Collect(vs + [m]) == AddAll(Collect(vs), Trim(m.attrType), m.filenames)
    ensures log + AttrCalls(vs + [m]) == log + AttrCalls(vs) + Pairs(Trim(m.attrType), m.filenames)
    ensures Replacements(vs + [m]) == Replacements(vs) + [Replacement(m.start, m.start + |m.text|)]
  {
    assert (vs + [m])[..|vs|] == vs;
    AcceptedCalls(vs, m, log);
    AcceptedReplacements(vs, m);
  }

  lemma AcceptedCalls(vs: seq<AttrMatch>, m: AttrMatch, log: seq<(string, string)>)
    ensures log + AttrCalls(vs + [m]) == log + AttrCalls(vs) + Pairs(Trim(m.attrType), m.filenames)
  {
    assert (vs + [m])[..|vs|] == vs;
    assert AttrCalls(vs + [m]) == AttrCalls(vs) + Pairs(Trim(m.attrType), m.filenames);
  }

  lemma AcceptedReplacements(vs: seq<AttrMatch>, m: AttrMatch)
    ensures Replacements(vs + [m]) == Replacements(vs) + [Replacement(m.start, m.start + |m.text|)]
  {
  }

  /** Every target of an accepted match is stored under its trimmed type, in order, duplicates kept. */
  lemma {:induction false} CollectTargets(vs: seq<AttrMatch>, t: string)
    ensures Targets(Collect(vs), t) == TargetsOfType(vs, t)
    decreases |vs|
  {
    if vs != [] {
      CollectTargets(vs[..|vs| - 1], t);
    }
  }

  /** `addToCollection` applied to each `(type, target)` pair in turn. */
  function AddPairs(c: Collection, ps: seq<(string, string)>): Collection
    decreases |ps|
  {
    if ps == [] then c
    else
      var p := ps[|ps| - 1];
      Added(AddPairs(c, ps[..|ps| - 1]), p.0, p.1)
  }

  /** The type of each pair. */
  function TypesOf(ps: seq<(string, string)>): (ts: seq<string>)
    ensures |ts| == |ps| && forall i :: 0 <= i < |ps| ==> ts[i] == ps[i].0
  {
    seq(|ps|, i requires 0 <= i < |ps| => ps[i].0)
  }

  lemma {:induction false} AddPairsAppend(c: Collection, ps: seq<(string, string)>, qs: seq<(string, string)>)
    ensures AddPairs(c, ps + qs) == AddPairs(AddPairs(c, ps), qs)
    decreases |qs|
  {
    if qs == [] {
      assert ps + qs == ps;
    } else {
      assert (ps + qs)[..|ps + qs| - 1] == ps + qs[..|qs| - 1];
      AddPairsAppend(c, ps, qs[..|qs| - 1]);
    }
  }

  lemma {:induction false} AddAllIsAddPairs(c: Collection, t: string, fs: seq<string>)
    ensures AddAll(c, t, fs) == AddPairs(c, Pairs(t, fs))
    decreases |fs|
  {
    if fs != [] {
      var init := fs[..|fs| - 1];
      AddAllIsAddPairs(c, t, init);
      assert Pairs(t, fs)[..|fs| - 1] == Pairs(t, init);
    }
  }

  /** The pre-pass collection is what the recorded `addToCollection` calls build, one by one. */
  lemma {:induction false} CollectIsAddPairs(vs: seq<AttrMatch>)
    ensures Collect(vs) == AddPairs(EmptyCollection, AttrCalls(vs))
    decreases |vs|
  {
    if vs != [] {
      var init := vs[..|vs| - 1];
      var m := vs[|vs| - 1];
      CollectIsAddPairs(init);
      AddAllIsAddPairs(Collect(init), Trim(m.attrType), m.filenames);
      AddPairsAppend(EmptyCollection, AttrCalls(init), Pairs(Trim(m.attrType), m.filenames));
    }
  }

  lemma {:induction false} AddPairsTypes(ps: seq<(string, string)>)
    ensures AddPairs(EmptyCollection, ps).types == FirstOccurrences(TypesOf(ps))
    ensures forall u :: u in AddPairs(EmptyCollection, ps).targets <==> u in TypesOf(ps)
    decreases |ps|
  {
    if ps != [] {
      var init := ps[..|ps| - 1];
      var p := ps[|ps| - 1];
      AddPairsTypes(init);
      var c := AddPairs(EmptyCollection, init);
      assert AddPairs(EmptyCollection, ps) == Added(c, p.0, p.1);
      var ts, ti := TypesOf(ps), TypesOf(init);
      TypesOfSnoc(ps);
      assert ts[..|ts| - 1] == ti;
      assert p.0 in c.targets <==> p.0 in ti;
    }
  }

  lemma TypesOfSnoc(ps: seq<(string, string)>)
    requires ps != []
    ensures TypesOf(ps) == TypesOf(ps[..|ps| - 1]) + [ps[|ps| - 1].0]
  {
  }

  /** The collection lists each type once, in the order of the first `addToCollection` call for it. */
  lemma CollectTypeOrder(vs: seq<AttrMatch>)
    ensures Collect(vs).types == FirstOccurrences(TypesOf(AttrCalls(vs)))
    ensures forall u :: u in Collect(vs).targets <==> u in TypesOf(AttrCalls(vs))
  {
    CollectIsAddPairs(vs);
    AddPairsTypes(AttrCalls(vs));
  }

  /** A span the pre-pass replaces with the empty string: `[start, end)` of the markdown. */
  datatype Replacement = Replacement(start: nat, end: nat)

  function Replacements(vs: seq<AttrMatch>): (rs: seq<Replacement>)
    ensures |rs| == |vs|
    ensures forall i :: 0 <= i < |vs| ==> rs[i] == Replacement(vs[i].start, vs[i].start + |vs[i].text|)
  {
    seq(|vs|, i requires 0 <= i < |vs| => Replacement(vs[i].start, vs[i].start + |vs[i].text|))
  }

  /** Non-empty spans inside `s`, in increasing, non-overlapping order. */
  ghost predicate Disjoint(s: string, rs: seq<Replacement>) {
    && (forall i :: 0 <= i < |rs| ==> rs[i].start < rs[i].end <= |s|)
    && (forall i, j :: 0 <= i < j < |rs| ==> rs[i].end <= rs[j].start)
  }

  lemma ReplacementsDisjoint(s: string, vs: seq<AttrMatch>)
    requires MatchesOf(s, vs)
    ensures Disjoint(s, Replacements(vs))
  {
  }

  /** Where the first span starts, or the end of the text. */
  function Front(s: string, rs: seq<Replacement>): nat {
    if rs == [] then |s| else rs[0].start
  }

  /** The text from `from` on with every span cut out: the pieces between the spans, left to right. */
  function Keep(s: string, rs: seq<Replacement>, from: nat): (r: string)
    requires Disjoint(s, rs) && from <= Front(s, rs) <= |s|
    ensures |r| <= |s| - from
    decreases |rs|
  {
    if rs == [] then s[from..]
    else s[from..rs[0].start] + Keep(s, rs[1..], rs[0].end)
  }

  /** The markdown with the spans cut out. */
  function Cut(s: string, rs: seq<Replacement>): (r: string)
    requires Disjoint(s, rs)
    ensures |r| <= |s|
    ensures rs == [] ==> r == s
  {
    Keep(s, rs, 0)
  }

  /** The sum of the spans' lengths. */
  function Removed(rs: seq<Replacement>): int
    decreases |rs|
  {
    if rs == [] then 0 else rs[0].end - rs[0].start + Removed(rs[1..])
  }

  lemma KeepSplit(s: string, rs: seq<Replacement>, from: nat, mid: nat)
    requires Disjoint(s, rs) && from <= mid <= Front(s, rs) <= |s|
    ensures Keep(s, rs, from) == s[from..mid] + Keep(s, rs, mid)
  {
    if rs != [] {
      assert s[from..rs[0].start] == s[from..mid] + s[mid..rs[0].start];
    } else {
      assert s[from..] == s[from..mid] + s[mid..];
    }
  }

  /** Cutting removes exactly the spans' characters and keeps all others. */
  lemma {:induction false} KeepLength(s: string, rs: seq<Replacement>, from: nat)
    requires Disjoint(s, rs) && from <= Front(s, rs) <= |s|
    ensures |Keep(s, rs, from)| == |s| - from - Removed(rs)
    decreases |rs|
  {
    if rs != [] {
      KeepLength(s, rs[1..], rs[0].end);
    }
  }

  /** Reversing increasing spans gives the order `sort((a, b) => b.start - a.start)` produces. */
  function Reverse(rs: seq<Replacement>): (r: seq<Replacement>)
    ensures |r| == |rs|
    ensures forall i :: 0 <= i < |rs| ==> r[i] == rs[|rs| - 1 - i]
  {
    seq(|rs|, i requires 0 <= i < |rs| => rs[|rs| - 1 - i])
  }

  ghost predicate DescendingByStart(rs: seq<Replacement>) {
    forall i, j :: 0 <= i < j < |rs| ==> rs[i].start > rs[j].start
  }

  lemma ReverseIsDescending(s: string, rs: seq<Replacement>)
    requires Disjoint(s, rs)
    ensures DescendingByStart(Reverse(rs))
    ensures forall r :: r in Reverse(rs) <==> r in rs
  {
    var rev := Reverse(rs);
    forall i, j | 0 <= i < j < |rev| ensures rev[i].start > rev[j].start {
      var a, b := |rs| - 1 - j, |rs| - 1 - i;
      assert rs[a].start < rs[a].end <= rs[b].start;
    }
    forall r | r in rs ensures r in rev {
      var k :| 0 <= k < |rs| && rs[k] == r;
      assert rev[|rs| - 1 - k] == r;
    }
  }

  /** The text with the spans from index `k` on cut out: the state of the removal loop. */
  function CutFrom(s: string, rs: seq<Replacement>, k: nat): string
    requires Disjoint(s, rs) && k <= |rs|
  {
    var f := Front(s, rs[k..]);
    s[..f] + Keep(s, rs[k..], f)
  }

  lemma CutFromAll(s: string, rs: seq<Replacement>)
    requires Disjoint(s, rs)
    ensures CutFrom(s, rs, 0) == Cut(s, rs)
    ensures CutFrom(s, rs, |rs|) == s
  {
    assert rs[0..] == rs;
    KeepSplit(s, rs, 0, Front(s, rs));
    assert rs[|rs|..] == [];
  }

  /** One step of the removal loop: cutting the span before the already-cut suffix. */
  lemma CutStep(s: string, rs: seq<Replacement>, k: nat)
    requires Disjoint(s, rs) && 0 <= k < |rs|
    ensures rs[k].start <= rs[k].end <= |CutFrom(s, rs, k + 1)|
    ensures CutFrom(s, rs, k + 1)[..rs[k].start] + CutFrom(s, rs, k + 1)[rs[k].end..] == CutFrom(s, rs, k)
  {
    var modified := CutFrom(s, rs, k + 1);
    var tail := rs[k + 1..];
    var f := Front(s, tail);
    var r := rs[k];
    assert r.end <= f by {
      if tail != [] {
        assert tail[0] == rs[k + 1];
      }
    }
    assert Disjoint(s, tail);
    KeepSplit(s, tail, r.end, f);
    assert rs[k..][1..] == tail;
    assert modified[..r.start] == s[..r.start];
    assert modified[r.end..] == s[r.end..f] + Keep(s, tail, f);
  }

  /**
    The second pass of the pre-pass: sorts the spans by descending start and
    replaces each with the empty string, so earlier offsets stay valid.
   */
  method ApplyReplacements(markdown: string, replacements: seq<Replacement>) returns (modified: string)
    requires Disjoint(markdown, replacements)
    ensures modified == Cut(markdown, replacements)
  {
    // replacements.sort((a, b) => b.start - a.start): the spans are increasing, so this is their reverse
    var sorted := Reverse(replacements);
    ReverseIsDescending(markdown, replacements);
    modified := markdown;
    CutFromAll(markdown, replacements);
    var k := 0;
    while k < |sorted|
      invariant 0 <= k <= |sorted|
      invariant modified == CutFrom(markdown, replacements, |sorted| - k)
    {
      var r := sorted[k];
      CutStep(markdown, replacements, |sorted| - k - 1);
      modified := modified[..r.start] + modified[r.end..];  // the replacement text is always empty
      k := k + 1;
    }
  }

  // ---------------------------------------------------------------------------
  // The attribute box
  // ---------------------------------------------------------------------------

  /** One entry of the box's `<dl>`: a `<dt>` for a type or a `<dd>` for one of its targets. */
  datatype BoxItem = Term(attrType: string) | Description(attrType: string, filename: string)

  function EntryItems(t: string, fs: seq<string>): seq<BoxItem> {
    [Term(t)] + Descriptions(t, fs)
  }

  function Descriptions(t: string, fs: seq<string>): (ds: seq<BoxItem>)
    ensures |ds| == |fs| && forall i :: 0 <= i < |fs| ==> ds[i] == Description(t, fs[i])
  {
    seq(|fs|, i requires 0 <= i < |fs| => Description(t, fs[i]))
  }

  /** The box's entries for the given types: each type's `<dt>` followed by a `<dd>` per stored target. */
  function Items(c: Collection, ts: seq<string>): seq<BoxItem>
    decreases |ts|
  {
    if ts == [] then []
    else
      var t := ts[|ts| - 1];
      Items(c, ts[..|ts| - 1]) + EntryItems(t, Targets(c, t))
  }

  function TermsOf(items: seq<BoxItem>): seq<string>
    decreases |items|
  {
    if items == [] then []
    else
      var tail := match items[|items| - 1] case Term(t) => [t] case Description(_, _) => [];
      TermsOf(items[..|items| - 1]) + tail
  }

  function DescriptionsOf(items: seq<BoxItem>): seq<(string, string)>
    decreases |items|
  {
    if items == [] then []
    else
      var tail := match items[|items| - 1] case Term(_) => [] case Description(t, f) => [(t, f)];
      DescriptionsOf(items[..|items| - 1]) + tail
  }

  /** Every stored `(type, target)` pair, types in collection order and targets in stored order. */
  function StoredPairs(c: Collection, ts: seq<string>): seq<(string, string)>
    decreases |ts|
  {
    if ts == [] then []
    else StoredPairs(c, ts[..|ts| - 1]) + Pairs(ts[|ts| - 1], Targets(c, ts[|ts| - 1]))
  }

  lemma {:induction false} TermsOfAppend(xs: seq<BoxItem>, ys: seq<BoxItem>)
    ensures TermsOf(xs + ys) == TermsOf(xs) + TermsOf(ys)
    ensures DescriptionsOf(xs + ys) == DescriptionsOf(xs) + DescriptionsOf(ys)
    decreases |ys|
  {
    if ys == [] {
      assert xs + ys == xs;
    } else {
      var init := ys[..|ys| - 1];
      assert (xs + ys)[..|xs + ys| - 1] == xs + init;
      TermsOfAppend(xs, init);
    }
  }

  lemma {:induction false} EntryItemsParts(t: string, fs: seq<string>)
    ensures TermsOf(EntryItems(t, fs)) == [t]
    ensures DescriptionsOf(EntryItems(t, fs)) == Pairs(t, fs)
    decreases |fs|
  {
    if fs != [] {
      var init, f := fs[..|fs| - 1], fs[|fs| - 1];
      var prev, d := EntryItems(t, init), Description(t, f);
      EntryItemsParts(t, init);
      assert EntryItems(t, fs) == prev + [d];
      TermsOfAppend(prev, [d]);
      assert [d][..0] == [];
      assert TermsOf([d]) == [] && DescriptionsOf([d]) == [(t, f)];
      assert TermsOf(prev + [d]) == [t];
      assert Pairs(t, fs) == Pairs(t, init) + [(t, f)];
    } else {
      assert EntryItems(t, fs) == [Term(t)];
      assert TermsOf([Term(t)]) == [t];
    }
  }

  /** One `<dt>` per type, in the given order, and one `<dd>` per stored target, in stored order. */
  lemma {:induction false} ItemsStructure(c: Collection, ts: seq<string>)
    ensures TermsOf(Items(c, ts)) == ts
    ensures DescriptionsOf(Items(c, ts)) == StoredPairs(c, ts)
    decreases |ts|
  {
    if ts != [] {
      var init := ts[..|ts| - 1];
      var t := ts[|ts| - 1];
      ItemsStructure(c, init);
      TermsOfAppend(Items(c, init), EntryItems(t, Targets(c, t)));
      EntryItemsParts(t, Targets(c, t));
      assert ts == init + [t];
    }
  }

  /** The CSS classes of a resolved attribute target. */
  function AttrClasses(n: ClassNames, attrType: string, doctype: Option<string>): (cs: seq<string>)
    ensures |cs| == (if attrType != "" then 3 else 1) + (if Truthy(doctype) then 1 else 0)
    ensures attrType != "" ==> cs[0] == n.attr && cs[1] == n.wiki && cs[2] == n.reftype + Slug(attrType)
    ensures attrType == "" ==> cs[0] == n.wiki
    ensures Truthy(doctype) ==> cs[|cs| - 1] == n.doctype + Slug(doctype.value)
  {
    var front := if attrType != "" then [n.attr, n.wiki, n.reftype + Slug(attrType)] else [n.wiki];
    WithLast(front, if Truthy(doctype) then Some(n.doctype + Slug(doctype.value)) else None)
  }

  /** `front`, followed by `last` when there is one. */
  function WithLast<T>(front: seq<T>, last: Option<T>): (cs: seq<T>)
    ensures |cs| == |front| + (if last.Some? then 1 else 0)
    ensures forall i :: 0 <= i < |front| ==> cs[i] == front[i]
    ensures last.Some? ==> cs[|cs| - 1] == last.value
  {
    front + (if last.Some? then [last.value] else [])
  }

  /** The resolvers the attribute extension calls unconditionally. */
  predicate HasResolvers(opts: WikiRefsOptions) {
    opts.resolveHtmlHref.Some? && opts.resolveHtmlText.Some?
  }

  /**
    The anchor inside one `<dd>`. Only an undefined href is invalid (an empty
    one is valid); the invalid anchor shows the target in brackets, or
    `error` for an empty target.
   */
  function AttrAnchor(opts: WikiRefsOptions, attrType: string, filename: string): (a: Anchor)
    requires HasResolvers(opts)
    ensures a.href == a.dataHref
    ensures a.href.None? <==> opts.resolveHtmlHref.value(filename).None?
    ensures a.href.Some? ==> a.href.value == BaseUrl(opts) + opts.resolveHtmlHref.value(filename).value
    ensures a.href.None? ==>
      && a.classes == [Names(opts).attr, Names(opts).wiki, Names(opts).invalid]
      && a.text == "[[" + (if filename == "" then "error" else filename) + "]]"
    ensures a.href.Some? ==>
      && a.classes == AttrClasses(Names(opts), attrType, DocType(opts, filename))
      && a.text == Or(opts.resolveHtmlText.value(filename), filename)
  {
    var n := Names(opts);
    var htmlHref := opts.resolveHtmlHref.value(filename);
    var htmlText := if Truthy(opts.resolveHtmlText.value(filename)) then opts.resolveHtmlText.value(filename).value else filename;
    if htmlHref.None? then
      var wikitext := if filename != "" then filename else "error";
      Anchor([n.attr, n.wiki, n.invalid], None, None, "[[" + wikitext + "]]")
    else
      var href := BaseUrl(opts) + htmlHref.value;
      Anchor(AttrClasses(n, attrType, DocType(opts, filename)), Some(href), Some(href), htmlText)
  }

  function ItemHtml(opts: WikiRefsOptions, item: BoxItem): string
    requires HasResolvers(opts)
  {
    match item
    case Term(t) => "<dt>" + t + "</dt>\n"
    case Description(t, f) => "<dd>" + AnchorHtml(AttrAnchor(opts, t, f)) + "</dd>\n"
  }

  function RenderItems(opts: WikiRefsOptions, items: seq<BoxItem>): string
    requires HasResolvers(opts)
    decreases |items|
  {
    if items == [] then ""
    else RenderItems(opts, items[..|items| - 1]) + ItemHtml(opts, items[|items| - 1])
  }

  lemma {:induction false} RenderItemsAppend(opts: WikiRefsOptions, xs: seq<BoxItem>, ys: seq<BoxItem>)
    requires HasResolvers(opts)
    ensures RenderItems(opts, xs + ys) == RenderItems(opts, xs) + RenderItems(opts, ys)
    decreases |ys|
  {
    if ys == [] {
      assert xs + ys == xs;
    } else {
      var init := ys[..|ys| - 1];
      var last := ItemHtml(opts, ys[|ys| - 1]);
      assert (xs + ys)[..|xs + ys| - 1] == xs + init;
      assert (xs + ys)[|xs + ys| - 1] == ys[|ys| - 1];
      RenderItemsAppend(opts, xs, init);
      ConcatAssoc(RenderItems(opts, xs), RenderItems(opts, init), last);
    }
  }

  lemma ConcatAssoc(a: string, b: string, c: string)
    ensures a + b + c == a + (b + c)
  {
  }

  lemma DescriptionsSnoc(opts: WikiRefsOptions, t: string, fs: seq<string>, j: nat)
    requires HasResolvers(opts) && j < |fs|
    ensures RenderItems(opts, Descriptions(t, fs[..j + 1]))
      == RenderItems(opts, Descriptions(t, fs[..j])) + ("<dd>" + AnchorHtml(AttrAnchor(opts, t, fs[j])) + "</dd>\n")
  {
    var ds := Descriptions(t, fs[..j + 1]);
    assert ds[..j] == Descriptions(t, fs[..j]);
    assert ds[j] == Description(t, fs[j]);
  }

  /** One turn of the outer loop: the `<dt>` and the `<dd>`s of the next type extend the rendered entries. */
  lemma EntryStep(opts: WikiRefsOptions, c: Collection, ts: seq<string>, i: nat, open: string, html: string)
    requires HasResolvers(opts) && i < |ts| && ts[i] in c.targets
    requires html == open + RenderItems(opts, Items(c, ts[..i]))
      + ("<dt>" + ts[i] + "</dt>\n") + RenderItems(opts, Descriptions(ts[i], c.targets[ts[i]]))
    ensures html == open + RenderItems(opts, Items(c, ts[..i + 1]))
  {
    var t := ts[i];
    var prev := Items(c, ts[..i]);
    var ds := Descriptions(t, c.targets[t]);
    ItemsSnoc(c, ts, i);
    RenderEntry(opts, prev, t, ds);
    Reassociate(open, RenderItems(opts, prev), t, RenderItems(opts, ds));
  }

  lemma ItemsSnoc(c: Collection, ts: seq<string>, i: nat)
    requires i < |ts| && ts[i] in c.targets
    ensures Items(c, ts[..i + 1]) == Items(c, ts[..i]) + ([Term(ts[i])] + Descriptions(ts[i], c.targets[ts[i]]))
  {
    assert ts[..i + 1][..i] == ts[..i];
  }

  lemma RenderEntry(opts: WikiRefsOptions, prev: seq<BoxItem>, t: string, ds: seq<BoxItem>)
    requires HasResolvers(opts)
    ensures RenderItems(opts, prev + ([Term(t)] + ds)) == RenderItems(opts, prev) + ("<dt>" + t + "</dt>\n" + RenderItems(opts, ds))
  {
    RenderItemsAppend(opts, prev, [Term(t)] + ds);
    RenderItemsAppend(opts, [Term(t)], ds);
    RenderTerm(opts, t);
  }

  lemma RenderTerm(opts: WikiRefsOptions, t: string)
    requires HasResolvers(opts)
    ensures RenderItems(opts, [Term(t)]) == "<dt>" + t + "</dt>\n"
  {
    assert [Term(t)][..0] == [];
  }

  lemma Reassociate(b: string, p: string, t: string, d: string)
    ensures b + p + ("<dt>" + t + "</dt>\n") + d == b + (p + (("<dt>" + t + "</dt>\n") + d))
  {
  }

  /** `opts.attrs?.title || 'Attributes'`. */
  function BoxTitle(opts: WikiRefsOptions): string {
    if opts.attrs.Some? then Or(opts.attrs.value.title, "Attributes") else "Attributes"
  }

  /** `<aside class="attrbox">\n<span class="attrbox-title">Attributes</span>\n<dl>\n`, with the configured names. */
  function BoxOpen(opts: WikiRefsOptions): string {
    "<aside " + BoxMarker(opts) + BoxOpenRest(opts)
  }

  function BoxOpenRest(opts: WikiRefsOptions): string {
    ">\n<span class=\"" + Names(opts).attrboxTitle + "\">" + BoxTitle(opts) + "</span>\n<dl>\n"
  }

  /** The opening of the box as the three template lines write it. */
  lemma BoxOpenAsWritten(opts: WikiRefsOptions)
    ensures BoxOpen(opts) == ("<aside class=\"" + Names(opts).attrbox + "\">\n")
      + ("<span class=\"" + Names(opts).attrboxTitle + "\">" + BoxTitle(opts) + "</span>\n") + "<dl>\n"
  {
    Regroup(Names(opts).attrbox, Names(opts).attrboxTitle, BoxTitle(opts));
  }

  lemma Regroup(a: string, t: string, x: string)
    ensures "<aside " + ("class=\"" + a + "\"") + (">\n<span class=\"" + t + "\">" + x + "</span>\n<dl>\n")
      == ("<aside class=\"" + a + "\">\n") + ("<span class=\"" + t + "\">" + x + "</span>\n") + "<dl>\n"
  {
    var head := "<aside class=\"" + a;
    var mid := "<span class=\"" + t + "\">" + x;
    assert "<aside " + ("class=\"" + a + "\"") == head + "\"";
    assert ">\n<span class=\"" + t + "\">" + x + "</span>\n<dl>\n" == ">\n" + mid + "</span>\n" + "<dl>\n";
    Regroup3(head, mid);
  }

  lemma Regroup3(head: string, mid: string)
    ensures (head + "\"") + (">\n" + mid + "</span>\n" + "<dl>\n") == (head + "\">\n") + (mid + "</span>\n") + "<dl>\n"
  {
  }

  const BoxClose := "</dl>\n</aside>\n"

  /** What `renderAttributeBox` returns for a collection: nothing when empty, else the whole `<aside>`. */
  function AttrBox(opts: WikiRefsOptions, c: Collection): (r: string)
    requires HasResolvers(opts)
    ensures r == "" <==> |c.types| == 0
  {
    if |c.types| == 0 then "" else BoxOpen(opts) + RenderItems(opts, Items(c, c.types)) + BoxClose
  }

  /** The marker the post-pass searches for: `class="attrbox"` with the configured name. */
  function BoxMarker(opts: WikiRefsOptions): string {
    "class=\"" + Names(opts).attrbox + "\""
  }

  /** The box is empty exactly when the collection is, and a non-empty box begins with `<aside ` and the marker. */
  lemma AttrBoxShape(opts: WikiRefsOptions, c: Collection)
    requires HasResolvers(opts)
    ensures AttrBox(opts, c) == "" <==> |c.types| == 0
    ensures |c.types| > 0 ==> StartsAt(AttrBox(opts, c), 7, BoxMarker(opts))
  {
    if |c.types| > 0 {
      BoxOpenMarker(opts, RenderItems(opts, Items(c, c.types)) + BoxClose);
      assert AttrBox(opts, c) == BoxOpen(opts) + (RenderItems(opts, Items(c, c.types)) + BoxClose);
    }
  }

  lemma BoxOpenMarker(opts: WikiRefsOptions, x: string)
    ensures StartsAt(BoxOpen(opts) + x, 7, BoxMarker(opts))
  {
    var m := BoxMarker(opts);
    assert ("<aside " + m)[7..7 + |m|] == m;
    StartsAtExtends("<aside " + m, BoxOpenRest(opts) + x, 7, m);
    assert BoxOpen(opts) + x == ("<aside " + m) + (BoxOpenRest(opts) + x);
  }

  /** An occurrence stays where it is when text is appended. */
  lemma StartsAtExtends(s: string, t: string, i: int, p: string)
    requires StartsAt(s, i, p)
    ensures StartsAt(s + t, i, p)
  {
    assert (s + t)[i..i + |p|] == s[i..i + |p|];
  }

  // ---------------------------------------------------------------------------
  // The post-pass
  // ---------------------------------------------------------------------------

  /** `!!(opts.attrs && opts.attrs.render !== false)`: off unless `attrs` is given. */
  predicate RendersBox(opts: WikiRefsOptions) {
    opts.attrs.Some? && opts.attrs.value.render != Some(false)
  }

  /** What `postprocess` returns for a collection and an HTML text. */
  function PostprocessResult(opts: WikiRefsOptions, c: Collection, html: string): (r: string)
    requires HasResolvers(opts)
    ensures |html| <= |r| && r[|r| - |html|..] == html
  {
    var box := AttrBox(opts, c);
    if RendersBox(opts) && box != "" && !Includes(html, BoxMarker(opts)) then box + html else html
  }

  lemma IncludesInPrefix(a: string, b: string, p: string, i: nat)
    requires StartsAt(a, i, p)
    ensures Includes(a + b, p)
  {
    assert (a + b)[i..i + |p|] == a[i..i + |p|];
    IncludesIff(a + b, p);
    assert StartsAt(a + b, i, p);
  }

  /**
    The post-pass changes the HTML only by prepending the box, and does so
    exactly when rendering is on, the collection is non-empty and the HTML
    holds no box marker yet.
   */
  lemma PostprocessPrepends(opts: WikiRefsOptions, c: Collection, html: string)
    requires HasResolvers(opts)
    ensures var r := PostprocessResult(opts, c, html);
      && (r != html <==> RendersBox(opts) && |c.types| > 0 && !Includes(html, BoxMarker(opts)))
      && (r != html ==> r == AttrBox(opts, c) + html)
  {
    AttrBoxShape(opts, c);
    var box := AttrBox(opts, c);
    if box != "" {
      assert |box + html| > |html|;
    }
  }

  /** Applying the post-pass twice with the same collection gives what applying it once gives. */
  lemma PostprocessIdempotent(opts: WikiRefsOptions, c: Collection, html: string)
    requires HasResolvers(opts)
    ensures PostprocessResult(opts, c, PostprocessResult(opts, c, html)) == PostprocessResult(opts, c, html)
  {
    AttrBoxShape(opts, c);
    var box := AttrBox(opts, c);
    if RendersBox(opts) && box != "" && !Includes(html, BoxMarker(opts)) {
      IncludesInPrefix(box, html, BoxMarker(opts), 7);
    }
  }

  // ---------------------------------------------------------------------------
  // The extension instance
  // ---------------------------------------------------------------------------

  /**
    What `wikiattrs(opts)` returns: the hooks closing over one attribute
    collection. `attrCalls` records the calls of the `addAttr` callback.
   */
  class AttrExtension {
    const opts: WikiRefsOptions
    var collection: Collection
    var attrCalls: seq<(string, string)>

    ghost predicate Valid()
      reads this
    {
      HasResolvers(opts) && WellFormed(collection)
    }

    constructor (opts: WikiRefsOptions)
      requires HasResolvers(opts)
      ensures Valid() && this.opts == opts
      ensures collection == EmptyCollection && attrCalls == []
    {
      this.opts := opts;
      collection := EmptyCollection;
      attrCalls := [];
    }

    /** `addToCollection`: creates the list for a new type, appends the target, reports it to `addAttr`. */
    method AddToCollection(attrType: string, filename: string)
      requires Valid()
      modifies this
      ensures Valid()
      ensures collection == Added(old(collection), attrType, filename)
      ensures opts.addAttr ==> attrCalls == old(attrCalls) + [(attrType, filename)]
      ensures !opts.addAttr ==> attrCalls == old(attrCalls)
    {
      ghost var c := collection;
      if attrType !in collection.targets {
        collection := Collection(collection.types + [attrType], collection.targets[attrType := []]);
      }
      collection := collection.(targets := collection.targets[attrType := collection.targets[attrType] + [filename]]);
      assert collection.targets == Added(c, attrType, filename).targets;
      if opts.addAttr {
        attrCalls := attrCalls + [(attrType, filename)];
      }
    }

    /** `renderAttributeBox`: the `<aside>` built by nested loops over types and targets. */
    method RenderAttributeBox() returns (html: string)
      requires Valid()
      ensures html == AttrBox(opts, collection)
    {
      if |collection.types| == 0 {
        return "";
      }
      var names := Names(opts);
      html := "<aside class=\"" + names.attrbox + "\">\n";
      html := html + ("<span class=\"" + names.attrboxTitle + "\">" + BoxTitle(opts) + "</span>\n");
      html := html + "<dl>\n";
      BoxOpenAsWritten(opts);
      var entries := RenderEntries();
      html := html + entries;
      html := html + "</dl>\n</aside>\n";
    }

    /** The outer loop of `renderAttributeBox`: a `<dt>` and the `<dd>`s of each type, in collection order. */
    method RenderEntries() returns (html: string)
      requires Valid()
      ensures html == RenderItems(opts, Items(collection, collection.types))
    {
      html := "";
      var types := collection.types;
      var i := 0;
      assert types[..0] == [];
      while i < |types|
        invariant 0 <= i <= |types|
        invariant html == "" + RenderItems(opts, Items(collection, types[..i]))
      {
        var attrType := types[i];
        var filenames := collection.targets[attrType];
        var dds := RenderTargets(attrType, filenames);
        html := html + ("<dt>" + attrType + "</dt>\n") + dds;
        EntryStep(opts, collection, types, i, "", html);
        i := i + 1;
      }
      assert types[..i] == types;
    }

    /** The inner loop of `renderAttributeBox`: one `<dd>` per target of a type. */
    method RenderTargets(attrType: string, filenames: seq<string>) returns (dds: string)
      requires Valid()
      ensures dds == RenderItems(opts, Descriptions(attrType, filenames))
    {
      dds := "";
      var j := 0;
      assert filenames[..0] == [];
      while j < |filenames|
        invariant 0 <= j <= |filenames|
        invariant dds == RenderItems(opts, Descriptions(attrType, filenames[..j]))
      {
        dds := dds + ("<dd>" + AnchorHtml(AttrAnchor(opts, attrType, filenames[j])) + "</dd>\n");
        DescriptionsSnoc(opts, attrType, filenames, j);
        j := j + 1;
      }
      assert filenames[..j] == filenames;
    }

    /**
      `hooks.preprocess`: clears the collection, adds the targets of every
      match in a valid context, and returns the markdown with exactly those
      matches cut out, removing them from the last to the first.
     */
    method Preprocess(markdown: string, matches: seq<AttrMatch>) returns (modified: string)
      requires Valid()
      requires MatchesOf(markdown, matches)
      modifies this
      ensures Valid()
      ensures collection == Collect(ValidMatches(markdown, matches))
      ensures attrCalls == old(attrCalls) + (if opts.addAttr then AttrCalls(ValidMatches(markdown, matches)) else [])
      ensures Disjoint(markdown, Replacements(ValidMatches(markdown, matches)))
      ensures modified == Cut(markdown, Replacements(ValidMatches(markdown, matches)))
    {
      collection := EmptyCollection;
      var replacements := CollectPass(markdown, matches);
      ValidMatchesOrdered(markdown, matches);
      ReplacementsDisjoint(markdown, ValidMatches(markdown, matches));
      modified := ApplyReplacements(markdown, replacements);
    }

    /** The first pass of the pre-pass: the scan over the attribute matches. */
    method CollectPass(markdown: string, matches: seq<AttrMatch>) returns (replacements: seq<Replacement>)
      requires Valid() && collection == EmptyCollection
      modifies this
      ensures Valid()
      ensures collection == Collect(ValidMatches(markdown, matches))
      ensures attrCalls == old(attrCalls) + (if opts.addAttr then AttrCalls(ValidMatches(markdown, matches)) else [])
      ensures replacements == Replacements(ValidMatches(markdown, matches))
    {
      replacements := [];
      var i := 0;
      ghost var vs: seq<AttrMatch> := [];
      assert matches[..0] == [];
      assert Scanned(markdown, [], old(attrCalls), vs, replacements);
      while i < |matches|
        invariant i <= |matches| && Scanned(markdown, matches[..i], old(attrCalls), vs, replacements)
      {
        replacements, vs := ScanMatch(markdown, matches, i, old(attrCalls), vs, replacements);
        i := i + 1;
      }
      assert matches[..i] == matches;
      assert vs == ValidMatches(markdown, matches);
    }

    /** The state after scanning the matches `done`: `vs` are those accepted, and the collection, the callback log and the spans follow from them. */
    ghost predicate Scanned(markdown: string, done: seq<AttrMatch>, log: seq<(string, string)>,
                            vs: seq<AttrMatch>, replacements: seq<Replacement>)
      reads this
    {
      && vs == ValidMatches(markdown, done)
      && HasResolvers(opts) && collection == Collect(vs)
      && attrCalls == log + (if opts.addAttr then AttrCalls(vs) else [])
      && replacements == Replacements(vs)
    }

    /** One turn of the scan: the `i`-th match is kept, with its targets and its span, exactly when `isTop` accepts it. */
    method ScanMatch(markdown: string, matches: seq<AttrMatch>, i: nat, ghost log: seq<(string, string)>,
                     ghost vs: seq<AttrMatch>, replacements: seq<Replacement>)
      returns (next: seq<Replacement>, ghost ws: seq<AttrMatch>)
      requires i < |matches| && Scanned(markdown, matches[..i], log, vs, replacements)
      modifies this
      ensures Scanned(markdown, matches[..i + 1], log, ws, next)
    {
      var m := matches[i];
      ValidMatchesSnoc(markdown, matches, i);
      next := replacements;
      ws := vs;
      if IsTop(markdown, m.start, m.text) {
        Accept(vs, m, log);
        next := replacements + [Replacement(m.start, m.start + |m.text|)];
        AcceptedReplacements(vs, m);
        ws := vs + [m];
      }
    }

    /** The body of the scan for a match `isTop` accepts: its targets go under its trimmed type. */
    method Accept(ghost vs: seq<AttrMatch>, m: AttrMatch, ghost log: seq<(string, string)>)
      requires Valid() && collection == Collect(vs)
      requires opts.addAttr ==> attrCalls == log + AttrCalls(vs)
      requires !opts.addAttr ==> attrCalls == log
      modifies this
      ensures Valid()
      ensures collection == Collect(vs + [m])
      ensures opts.addAttr ==> attrCalls == log + AttrCalls(vs + [m])
      ensures !opts.addAttr ==> attrCalls == log
    {
      var attrtype := Trim(m.attrType);
      AddTargets(attrtype, m.filenames);
      AcceptedStep(vs, m, log);
    }

    /** The scan over the link matches inside one attribute match. */
    method AddTargets(attrtype: string, filenames: seq<string>)
      requires Valid()
      modifies this
      ensures Valid()
      ensures collection == AddAll(old(collection), attrtype, filenames)
      ensures opts.addAttr ==> attrCalls == old(attrCalls) + Pairs(attrtype, filenames)
      ensures !opts.addAttr ==> attrCalls == old(attrCalls)
    {
      var j := 0;
      assert filenames[..0] == [];
      while j < |filenames|
        invariant 0 <= j <= |filenames|
        invariant Valid()
        invariant collection == AddAll(old(collection), attrtype, filenames[..j])
        invariant opts.addAttr ==> attrCalls == old(attrCalls) + Pairs(attrtype, filenames[..j])
        invariant !opts.addAttr ==> attrCalls == old(attrCalls)
      {
        AddToCollection(attrtype, filenames[j]);
        AddAllSnoc(old(collection), attrtype, filenames, j);
        PairsSnoc(old(attrCalls), attrtype, filenames, j);
        j := j + 1;
      }
      assert filenames[..j] == filenames;
    }

    /** `hooks.postprocess`: prepends the box once, when rendering is on. The collection is not cleared. */
    method Postprocess(html: string) returns (out: string)
      requires Valid()
      ensures out == PostprocessResult(opts, collection, html)
    {
      var attrboxHtml := RenderAttributeBox();
      var hasAttrbox := Includes(html, BoxMarker(opts));
      var doRender := RendersBox(opts);
      out := if doRender && attrboxHtml != "" && !hasAttrbox then attrboxHtml + html else html;
    }
  }
}
