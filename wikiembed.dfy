/**
  The embed extension of src/lib/wikiembed.ts: `start`, the tokenizer
  anchored at index 0, the renderer with its media branch and its document
  branch (which leaves a placeholder `<div>` and registers it), and the
  post-processing hook that drains the registry and substitutes each
  placeholder with resolved content or an error message.

  The embed pattern, `isMedia`, the extension sets and `path.extname` belong
  to code this model does not contain: they are inputs (`EmbedMatch`,
  `Platform`). The random placeholder id is a parameter of the renderer.
 */
module WikiEmbed {
  import opened Wrappers
  import opened Strings
  import opened Html

  /** One match of the embed pattern: offset, whole text and group 1 (the file name). */
  datatype EmbedMatch = EmbedMatch(index: nat, text: string, filename: string)

  /** The match's text is the source at the match's offset. */
  predicate LocatedIn(src: string, m: EmbedMatch) {
    m.index + |m.text| <= |src| && src[m.index..m.index + |m.text|] == m.text
  }

  /** `start`: 0 when the pattern matches somewhere in the source (`found` is its first match), -1 otherwise. */
  function Start(found: Option<EmbedMatch>): (r: int)
    ensures r == 0 <==> found.Some?
    ensures r == -1 <==> found.None?
  {
    if found.Some? then 0 else -1
  }

  datatype EmbedToken = EmbedToken(raw: string, filename: string)

  /** `tokenizer`: nothing unless the match starts at index 0; otherwise its text and file name. */
  function Tokenize(src: string, found: Option<EmbedMatch>): (t: Option<EmbedToken>)
    ensures t.Some? <==> found.Some? && found.value.index == 0
    ensures t.Some? ==> t.value == EmbedToken(found.value.text, found.value.filename)
    ensures t.Some? && LocatedIn(src, found.value) ==> t.value.raw <= src
  {
    if found.None? || found.value.index != 0 then None
    else Some(EmbedToken(found.value.text, found.value.filename))
  }

  /** What the renderer asks of its runtime: `isMedia`, `path.extname` and the audio, image and video extension sets. */
  datatype Platform = Platform(isMedia: string -> bool, extname: string -> string,
                               audio: set<string>, image: set<string>, video: set<string>)

  datatype MediaKind = Audio | Image | Video | NoKind

  /** The lower-cased extension is looked up in the audio, then the image, then the video set. */
  function MediaKindOf(platform: Platform, filename: string): (k: MediaKind)
    ensures var ext := ToLowerAscii(platform.extname(filename));
      && (k == Audio <==> ext in platform.audio)
      && (k == Image <==> ext !in platform.audio && ext in platform.image)
      && (k == Video <==> ext !in platform.audio && ext !in platform.image && ext in platform.video)
  {
    var ext := ToLowerAscii(platform.extname(filename));
    if ext in platform.audio then Audio
    else if ext in platform.image then Image
    else if ext in platform.video then Video
    else NoKind
  }

  /** `s.replace('.', '')`: removes the first dot, and only that one. */
  function DropFirstDot(s: string): (r: string)
    ensures '.' !in s ==> r == s
    ensures '.' in s ==> exists k :: 0 <= k <= |r| && s == r[..k] + "." + r[k..] && '.' !in r[..k]
  {
    var k := Scan(s, '.', 0);
    ScanFacts(s, '.', 0);
    if k == |s| then
      s
    else
      var r := s[..k] + s[k + 1..];
      assert r[..k] == s[..k] && r[k..] == s[k + 1..];
      assert s == r[..k] + "." + r[k..];
      r
  }

  /** The media element a media embed shows: its kind, class, MIME subtype and optional `src`. */
  datatype MediaElement = MediaElement(kind: MediaKind, classAttr: string, mime: string, src: Option<string>)

  /** The media element: `src` is present exactly when the href is truthy, and is the href without `baseUrl`. */
  function MediaElementOf(opts: WikiRefsOptions, platform: Platform, filename: string): (e: MediaElement)
    ensures e.kind == MediaKindOf(platform, filename)
    ensures e.mime == ToLowerAscii(DropFirstDot(platform.extname(filename)))
    ensures e.src.Some? <==> Truthy(HtmlHref(opts, filename))
    ensures e.src.Some? ==> e.src.value == HtmlHref(opts, filename).value
    ensures e.kind == Audio ==> e.classAttr == Names(opts).embedAudio
    ensures e.kind == Image ==> e.classAttr == Names(opts).embedImage
    ensures e.kind == Video ==> e.classAttr == Names(opts).embedVideo
  {
    var n := Names(opts);
    var kind := MediaKindOf(platform, filename);
    var href := HtmlHref(opts, filename);
    var classAttr := match kind
      case Audio => n.embedAudio
      case Image => n.embedImage
      case Video => n.embedVideo
      case NoKind => "";
    MediaElement(kind, classAttr, ToLowerAscii(DropFirstDot(platform.extname(filename))),
      if Truthy(href) then Some(href.value) else None)
  }

  /** The `<audio>`, `<img>` or `<video>` line, or `media error` for an extension in no set. */
  function MediaTag(e: MediaElement): (r: string)
    ensures |r| > 0 && r[|r| - 1] == '\n'
    ensures e.kind != NoKind <==> r[0] == '<'
  {
    match e.kind
    case Audio =>
      "<audio class=\"" + e.classAttr + "\" controls type=\"audio/" + e.mime + "\"" + AttributeText("src", e.src)
      + "></audio>\n"
    case Image =>
      "<img class=\"" + e.classAttr + "\"" + AttributeText("src", e.src) + ">\n"
    case Video =>
      "<video class=\"" + e.classAttr + "\" controls type=\"video/" + e.mime + "\"" + AttributeText("src", e.src)
      + "></video>\n"
    case NoKind => "media error\n"
  }

  function MediaOpen(n: ClassNames, slug: string): string {
    "<p>\n<span class=\"" + n.embedMedia + "\" src=\"" + slug + "\" alt=\"" + slug + "\">\n"
  }

  /** The HTML of a media embed. */
  function MediaHtml(opts: WikiRefsOptions, platform: Platform, filename: string): string {
    MediaOpen(Names(opts), Hyphenate(filename)) + MediaTag(MediaElementOf(opts, platform, filename))
    + "</span>\n</p>\n"
  }

  /** `(resolveHtmlText && resolveHtmlText(f)) ? resolveHtmlText(f) : f`. */
  function EmbedText(opts: WikiRefsOptions, filename: string): (r: string)
    ensures opts.resolveHtmlText.Some? && Truthy(opts.resolveHtmlText.value(filename)) ==>
      r == opts.resolveHtmlText.value(filename).value
    ensures !(opts.resolveHtmlText.Some? && Truthy(opts.resolveHtmlText.value(filename))) ==> r == filename
  {
    if opts.resolveHtmlText.Some? && Truthy(opts.resolveHtmlText.value(filename)) then
      opts.resolveHtmlText.value(filename).value
    else filename
  }

  /** The title anchor: with a truthy href it is `wiki embed [doctype__<slug>]` with equal `href` and `data-href`, otherwise `wiki embed invalid` without either. */
  function TitleAnchor(opts: WikiRefsOptions, filename: string): (a: Anchor)
    ensures a.href == a.dataHref
    ensures a.href.Some? <==> Truthy(HtmlHref(opts, filename))
    ensures a.href.Some? ==> a.href.value == BaseUrl(opts) + HtmlHref(opts, filename).value
    ensures a.text == "\n" + EmbedText(opts, filename) + "\n"
    ensures a.href.None? ==> a.classes == [Names(opts).wiki, Names(opts).embed, Names(opts).invalid]
    ensures a.href.Some? ==>
      var doctype := DocType(opts, filename);
      && |a.classes| == (if Truthy(doctype) then 3 else 2)
      && a.classes[0] == Names(opts).wiki && a.classes[1] == Names(opts).embed
      && (Truthy(doctype) ==> a.classes[2] == Names(opts).doctype + Slug(doctype.value))
  {
    var n := Names(opts);
    var href := HtmlHref(opts, filename);
    var text := "\n" + EmbedText(opts, filename) + "\n";
    if Truthy(href) then
      var doctype := DocType(opts, filename);
      var classes := if Truthy(doctype) then [n.wiki, n.embed, n.doctype + Slug(doctype.value)] else [n.wiki, n.embed];
      var h := BaseUrl(opts) + href.value;
      Anchor(classes, Some(h), Some(h), text)
    else
      Anchor([n.wiki, n.embed, n.invalid], None, None, text)
  }

  /** The link-icon anchor: the same href rule as the title, with `invalid` added when there is no href. */
  function IconAnchor(opts: WikiRefsOptions, filename: string): (a: Anchor)
    ensures a.href == a.dataHref
    ensures a.href.Some? <==> Truthy(HtmlHref(opts, filename))
    ensures a.href.Some? ==> a.href.value == BaseUrl(opts) + HtmlHref(opts, filename).value
    ensures a.classes == if a.href.Some? then [Names(opts).embedLinkIcon] else [Names(opts).embedLinkIcon, Names(opts).invalid]
    ensures a.text == "\n<i class=\"" + Names(opts).linkIcon + "\"></i>\n"
  {
    var n := Names(opts);
    var href := HtmlHref(opts, filename);
    var text := "\n<i class=\"" + n.linkIcon + "\"></i>\n";
    if Truthy(href) then
      var h := BaseUrl(opts) + href.value;
      Anchor([n.embedLinkIcon], Some(h), Some(h), text)
    else
      Anchor([n.embedLinkIcon, n.invalid], None, None, text)
  }

  /** `<div id="ID" class="embed-placeholder"`, the fixed front of a placeholder and of the pattern that finds it. */
  function PlaceholderHead(id: string): string {
    "<div id=\"" + id + "\" class=\"embed-placeholder\""
  }

  function PlaceholderAttrs(filename: string): string {
    " data-filename=\"" + filename + "\""
  }

  function PlaceholderText(filename: string): string {
    "Loading content for '" + filename + "'..."
  }

  const CloseDiv := "</div>"

  /** The placeholder `<div>` the document branch leaves for post-processing. */
  function PlaceholderDiv(id: string, filename: string): string {
    PlaceholderHead(id) + PlaceholderAttrs(filename) + ">" + PlaceholderText(filename) + CloseDiv
  }

  /** Everything the document branch writes before the placeholder. */
  function DocumentHead(opts: WikiRefsOptions, filename: string): string {
    var n := Names(opts);
    "<p>\n<div class=\"" + n.embedWrapper + "\">\n"
    + ("<div class=\"" + n.embedTitle + "\">\n")
    + (AnchorHtml(TitleAnchor(opts, filename)) + "\n")
    + "</div>\n"
    + ("<div class=\"" + n.embedLink + "\">\n")
    + (AnchorHtml(IconAnchor(opts, filename)) + "\n</div>\n")
    + ("<div class=\"" + n.embedContent + "\">\n")
  }

  /** Everything the document branch writes after the placeholder. */
  const DocumentTail := "\n" + "</div>\n" + "</div>\n</p>\n"

  /** The HTML of a document embed. */
  function DocumentHtml(opts: WikiRefsOptions, filename: string, id: string): string {
    DocumentHead(opts, filename) + PlaceholderDiv(id, filename) + DocumentTail
  }

  /** What the renderer returns for a file name: the media HTML, or the document HTML around placeholder `id`. */
  function EmbedHtml(opts: WikiRefsOptions, platform: Platform, filename: string, id: string): string {
    if platform.isMedia(filename) then MediaHtml(opts, platform, filename) else DocumentHtml(opts, filename, id)
  }

  /** The ids `'embed-' + Math.random().toString(36).substring(2, 15)` can produce: base-36 digits after `embed-`. */
  predicate IsPlaceholderId(id: string) {
    |id| >= 6 && id[..6] == "embed-" && forall i :: 6 <= i < |id| ==> 'a' <= id[i] <= 'z' || '0' <= id[i] <= '9'
  }

  /*
    The placeholder pattern `<div id="ID" class="embed-placeholder"[^>]*>[^<]*</div>`
    of the post-processing hook. Its literal front `head` is
    `PlaceholderHead(id)`, with the id read literally (an id has no character
    the pattern syntax treats specially); the matching functions below take
    that front as a parameter.
   */

  /** The first index at or after `from` holding `c`, or `|t|` when there is none: how far `[^c]*` reaches. */
  function Scan(t: string, c: char, from: nat): (r: nat)
    ensures from <= |t| ==> from <= r <= |t|
    decreases |t| - from
  {
    if from >= |t| then |t|
    else if t[from] == c then from
    else Scan(t, c, from + 1)
  }

  lemma {:induction false} ScanFacts(t: string, c: char, from: nat)
    requires from <= |t|
    ensures var r := Scan(t, c, from);
      && (r < |t| ==> t[r] == c)
      && forall j :: from <= j < r ==> t[j] != c
    decreases |t| - from
  {
    if from < |t| && t[from] != c {
      ScanFacts(t, c, from + 1);
    }
  }

  /** The scan stops at the first `c`. */
  lemma {:induction false} ScanFinds(t: string, c: char, from: nat, k: nat)
    requires from <= k <= |t| && (k < |t| ==> t[k] == c)
    requires forall j :: from <= j < k ==> t[j] != c
    ensures Scan(t, c, from) == k
    decreases k - from
  {
    if from < k {
      ScanFinds(t, c, from + 1, k);
    }
  }

  /**
    The length of the pattern's match at the front of `t`, if there is one.
    `[^>]*` can only stop at the first `>` after the head, and `[^<]*` only
    at the first `<` after that, so the match, when there is one, is unique.
   */
  function MatchPrefix(t: string, head: string): (r: Option<nat>)
    ensures r.Some? ==> |head| + |CloseDiv| < r.value <= |t|
  {
    if !StartsAt(t, 0, head) then None
    else
      var gt := Scan(t, '>', |head|);
      if gt == |t| then None
      else
        var lt := Scan(t, '<', gt + 1);
        if !StartsAt(t, lt, CloseDiv) then None
        else Some(lt + |CloseDiv|)
  }

  /** `u` is one string of the pattern's language, with `a` and `b` the texts matched by `[^>]*` and `[^<]*`. */
  ghost predicate Shape(u: string, head: string, a: string, b: string) {
    u == head + a + ">" + b + CloseDiv && '>' !in a && '<' !in b
  }

  /** Every match `MatchPrefix` reports is a string of the pattern's language. */
  lemma MatchPrefixSound(t: string, head: string)
    requires MatchPrefix(t, head).Some?
    ensures exists a, b :: Shape(t[..MatchPrefix(t, head).value], head, a, b)
  {
    var gt := Scan(t, '>', |head|);
    var lt := Scan(t, '<', gt + 1);
    var len := lt + |CloseDiv|;
    ScanFacts(t, '>', |head|);
    ScanFacts(t, '<', gt + 1);
    var a := t[|head|..gt];
    var b := t[gt + 1..lt];
    NotInSlice(t, '>', |head|, gt);
    NotInSlice(t, '<', gt + 1, lt);
    FivePieces(t, |head|, gt, lt, len);
    assert t[..|head|] == head && t[lt..len] == CloseDiv;
    assert Shape(t[..len], head, a, b);
  }

  /** A character absent from positions `from` to `to` is absent from that slice. */
  lemma NotInSlice(t: string, c: char, from: nat, to: nat)
    requires from <= to <= |t|
    requires forall j :: from <= j < to ==> t[j] != c
    ensures c !in t[from..to]
  {
    forall j | 0 <= j < to - from ensures t[from..to][j] != c {
      assert t[from..to][j] == t[from + j];
    }
  }

  /** A prefix cut at four points, one of them a single character. */
  lemma FivePieces(t: string, h: nat, g: nat, l: nat, len: nat)
    requires h <= g && g + 1 <= l <= len <= |t|
    ensures t[..len] == t[..h] + t[h..g] + [t[g]] + t[g + 1..l] + t[l..len]
  {
    assert t[..len] == t[..l] + t[l..len];
    assert t[..l] == t[..g + 1] + t[g + 1..l];
    assert t[..g + 1] == t[..g] + [t[g]];
    assert t[..g] == t[..h] + t[h..g];
  }

  /** Whenever the front of `t` is a string of the pattern's language, `MatchPrefix` reports exactly its length. */
  lemma MatchPrefixComplete(t: string, head: string, len: nat, a: string, b: string)
    requires len <= |t| && Shape(t[..len], head, a, b)
    ensures MatchPrefix(t, head) == Some(len)
  {
    var u := t[..len];
    var gt := |head| + |a|;
    var lt := gt + 1 + |b|;
    ShapePieces(u, head, a, b);
    assert StartsAt(t, 0, head) by { assert t[..|head|] == u[..|head|]; }
    forall j | |head| <= j < gt ensures t[j] != '>' {
      assert t[j] == u[|head|..gt][j - |head|];
    }
    ScanFinds(t, '>', |head|, gt);
    forall j | gt + 1 <= j < lt ensures t[j] != '<' {
      assert t[j] == u[gt + 1..lt][j - gt - 1];
    }
    assert t[lt] == '<' by { assert t[lt] == u[lt..][0]; }
    ScanFinds(t, '<', gt + 1, lt);
    assert StartsAt(t, lt, CloseDiv) by { assert t[lt..lt + |CloseDiv|] == u[lt..]; }
  }

  /** The pieces of a string of the pattern's language, by position. */
  lemma ShapePieces(u: string, head: string, a: string, b: string)
    requires Shape(u, head, a, b)
    ensures var gt := |head| + |a|; var lt := gt + 1 + |b|;
      && |u| == lt + |CloseDiv|
      && u[..|head|] == head && u[|head|..gt] == a && u[gt] == '>' && u[gt + 1..lt] == b && u[lt..] == CloseDiv
  {
  }

  /** The front `head + body + </div>` is matched whole when `body` holds a `>` and no `<`, wherever that `>` is. */
  lemma MatchesWhole(head: string, body: string, rest: string, k: nat)
    requires k < |body| && body[k] == '>' && '<' !in body
    ensures MatchPrefix(head + body + CloseDiv + rest, head) == Some(|head| + |body| + |CloseDiv|)
  {
    var t := head + body + CloseDiv + rest;
    var lt := |head| + |body|;
    assert t[..|head|] == head;
    assert t[lt..lt + |CloseDiv|] == CloseDiv;
    assert t[|head| + k] == '>';
    ScanFacts(t, '>', |head|);
    var gt := Scan(t, '>', |head|);
    assert gt <= |head| + k;
    forall j | gt + 1 <= j < lt ensures t[j] != '<' {
      assert t[j] == body[j - |head|];
    }
    assert t[lt] == '<';
    ScanFinds(t, '<', gt + 1, lt);
  }

  /** `regex.test(s)`: the pattern matches starting at some index of `s`. */
  predicate HasMatch(s: string, head: string)
    decreases |s|
  {
    MatchPrefix(s, head).Some? || (s != [] && HasMatch(s[1..], head))
  }

  lemma {:induction false} HasMatchIff(s: string, head: string)
    ensures HasMatch(s, head) <==> exists i :: 0 <= i <= |s| && MatchPrefix(s[i..], head).Some?
    decreases |s|
  {
    if s != [] {
      HasMatchIff(s[1..], head);
      forall i | 1 <= i <= |s| ensures s[1..][i - 1..] == s[i..] { }
      assert s[0..] == s;
    } else {
      assert s[0..] == s;
    }
  }

  /** `s.replace(regex, () => r)` with a global pattern: every match, scanned left to right, becomes `r` verbatim. */
  function ReplaceAll(s: string, head: string, r: string): string
    decreases |s|
  {
    if s == [] then []
    else match MatchPrefix(s, head)
      case Some(len) => r + ReplaceAll(s[len..], head, r)
      case None => [s[0]] + ReplaceAll(s[1..], head, r)
  }

  /** Without a match the text is returned unchanged. */
  lemma {:induction false} ReplaceAllNoMatch(s: string, head: string, r: string)
    requires !HasMatch(s, head)
    ensures ReplaceAll(s, head, r) == s
    decreases |s|
  {
    if s != [] {
      ReplaceAllNoMatch(s[1..], head, r);
    }
  }

  /** No match starts at an index of `s` below `k`. */
  ghost predicate NoMatchBefore(s: string, k: nat, head: string)
    requires k <= |s|
  {
    forall i :: 0 <= i < k ==> MatchPrefix(s[i..], head).None?
  }

  /** Text in front of the first match is kept as it is. */
  lemma {:induction false} ReplaceAllKeepsPrefix(a: string, b: string, head: string, r: string)
    requires NoMatchBefore(a + b, |a|, head)
    ensures ReplaceAll(a + b, head, r) == a + ReplaceAll(b, head, r)
    decreases |a|
  {
    if a == [] {
      assert a + b == b;
    } else {
      var a' := a[1..];
      NoMatchShift(a, b, head);
      ReplaceAllSkips(a + b, head, r);
      assert (a + b)[1..] == a' + b;
      ReplaceAllKeepsPrefix(a', b, head, r);
      assert a == [a[0]] + a';
    }
  }

  lemma ReplaceAllSkips(s: string, head: string, r: string)
    requires s != [] && MatchPrefix(s[0..], head).None?
    ensures ReplaceAll(s, head, r) == [s[0]] + ReplaceAll(s[1..], head, r)
  {
    assert s[0..] == s;
  }

  lemma NoMatchShift(a: string, b: string, head: string)
    requires a != [] && NoMatchBefore(a + b, |a|, head)
    ensures NoMatchBefore(a[1..] + b, |a| - 1, head)
    ensures MatchPrefix((a + b)[0..], head).None?
  {
    forall i | 0 <= i < |a| - 1 ensures MatchPrefix((a[1..] + b)[i..], head).None? {
      assert (a[1..] + b)[i..] == (a + b)[i + 1..];
    }
  }

  /** A match at the front is replaced by `r`, and the scan goes on after it. */
  lemma ReplaceAllAtMatch(p: string, b: string, head: string, r: string)
    requires MatchPrefix(p + b, head) == Some(|p|)
    ensures ReplaceAll(p + b, head, r) == r + ReplaceAll(b, head, r)
  {
    assert (p + b)[|p|..] == b;
  }

  /**
    The one-match picture: when `s` is `pre + p + rest`, no match starts in
    `pre` and `p` is a match, the replacement keeps `pre`, puts `r` in place
    of `p` and goes on with `rest`.
   */
  lemma ReplaceAllFirst(pre: string, p: string, rest: string, head: string, r: string)
    requires MatchPrefix(p + rest, head) == Some(|p|)
    requires NoMatchBefore(pre + (p + rest), |pre|, head)
    ensures HasMatch(pre + (p + rest), head)
    ensures ReplaceAll(pre + (p + rest), head, r) == pre + r + ReplaceAll(rest, head, r)
  {
    var s := pre + (p + rest);
    ReplaceAllKeepsPrefix(pre, p + rest, head, r);
    ReplaceAllAtMatch(p, rest, head, r);
    assert s[|pre|..] == p + rest;
    HasMatchIff(s, head);
  }

  lemma NoAngle(f: string)
    requires '<' !in f
    ensures '<' !in PlaceholderAttrs(f) + ">" + PlaceholderText(f)
  {
    var lit1 := " data-filename=\"";
    var lit2 := "\"";
    var lit3 := ">";
    var lit4 := "Loading content for '";
    var lit5 := "'...";
    assert '<' !in lit1 && '<' !in lit2 && '<' !in lit3 && '<' !in lit4 && '<' !in lit5;
    assert PlaceholderAttrs(f) + ">" + PlaceholderText(f) == lit1 + f + lit2 + lit3 + (lit4 + f + lit5);
  }

  /** A placeholder is found by its own pattern whenever its file name has no `<`, and the match is the whole `<div>`. */
  lemma PlaceholderMatches(id: string, filename: string, rest: string)
    requires '<' !in filename
    ensures MatchPrefix(PlaceholderDiv(id, filename) + rest, PlaceholderHead(id)) == Some(|PlaceholderDiv(id, filename)|)
  {
    var attrs := PlaceholderAttrs(filename);
    var body := attrs + ">" + PlaceholderText(filename);
    NoAngle(filename);
    assert body[|attrs|] == '>';
    MatchesWhole(PlaceholderHead(id), body, rest, |attrs|);
    assert PlaceholderDiv(id, filename) + rest == PlaceholderHead(id) + body + CloseDiv + rest;
  }

  /** `(opts.embeds?.errorContent || 'Error: Content not found for ') + "'" + filename + "'"`. */
  function ErrorString(opts: WikiRefsOptions, filename: string): (r: string)
    ensures |r| >= |filename| + 2 && r[|r| - |filename| - 2..] == "'" + filename + "'"
  {
    var prefix := if opts.embeds.Some? then opts.embeds.value.errorContent else None;
    Or(prefix, "Error: Content not found for ") + "'" + filename + "'"
  }

  /** What replaces a placeholder: the resolved content when truthy, otherwise the error string. */
  function Substitution(opts: WikiRefsOptions, filename: string): (r: string)
    requires opts.resolveEmbedContent.Some?
    ensures Truthy(opts.resolveEmbedContent.value(filename)) ==> r == opts.resolveEmbedContent.value(filename).value
    ensures !Truthy(opts.resolveEmbedContent.value(filename)) ==> r == ErrorString(opts, filename)
  {
    var content := opts.resolveEmbedContent.value(filename);
    if Truthy(content) then content.value else ErrorString(opts, filename)
  }

  /** The HTML so far and the file names handed to the content resolver so far. */
  datatype Progress = Progress(html: string, resolved: seq<string>)

  /** One registry entry: skipped when its placeholder is gone, otherwise resolved and substituted. */
  function Step(opts: WikiRefsOptions, p: Progress, entry: (string, string)): (q: Progress)
    requires opts.resolveEmbedContent.Some?
    ensures !HasMatch(p.html, PlaceholderHead(entry.0)) ==> q == p
    ensures HasMatch(p.html, PlaceholderHead(entry.0)) ==>
      q == Progress(ReplaceAll(p.html, PlaceholderHead(entry.0), Substitution(opts, entry.1)), p.resolved + [entry.1])
  {
    var head := PlaceholderHead(entry.0);
    if HasMatch(p.html, head) then
      Progress(ReplaceAll(p.html, head, Substitution(opts, entry.1)), p.resolved + [entry.1])
    else p
  }

  /** The registry's entries handled one at a time, in insertion order. */
  function Substitute(opts: WikiRefsOptions, html: string, entries: seq<(string, string)>): Progress
    requires opts.resolveEmbedContent.Some?
  {
    if entries == [] then Progress(html, [])
    else Step(opts, Substitute(opts, html, entries[..|entries| - 1]), entries[|entries| - 1])
  }

  /** The resolver is asked only for registered file names, never more often than there are entries, the k-th call for an entry at position k or later. */
  lemma {:induction false} SubstituteResolved(opts: WikiRefsOptions, html: string, entries: seq<(string, string)>)
    requires opts.resolveEmbedContent.Some?
    ensures var p := Substitute(opts, html, entries);
      && |p.resolved| <= |entries|
      && forall k :: 0 <= k < |p.resolved| ==> exists i :: k <= i < |entries| && entries[i].1 == p.resolved[k]
  {
    if entries != [] {
      var init := entries[..|entries| - 1];
      SubstituteResolved(opts, html, init);
      var p := Substitute(opts, html, init);
      var q := Substitute(opts, html, entries);
      forall k | 0 <= k < |q.resolved| ensures exists i :: k <= i < |entries| && entries[i].1 == q.resolved[k] {
        if k < |p.resolved| {
          var i :| k <= i < |init| && init[i].1 == p.resolved[k];
          assert entries[i].1 == q.resolved[k];
        } else {
          assert entries[|entries| - 1].1 == q.resolved[k];
        }
      }
    }
  }

  /**
    `ix` picks the entries behind the calls `resolved`: the k-th call is for
    the file name of entry `ix[k]`, and the picked positions strictly increase.
   */
  ghost predicate Picks(ix: seq<nat>, entries: seq<(string, string)>, resolved: seq<string>) {
    && |ix| == |resolved|
    && (forall k :: 0 <= k < |ix| ==> ix[k] < |entries| && entries[ix[k]].1 == resolved[k])
    && (forall k, l :: 0 <= k < l < |ix| ==> ix[k] < ix[l])
  }

  /** The resolver is called at most once per entry, in registry order: the calls pick a strictly increasing choice of entries. */
  lemma {:induction false} SubstituteOncePerEntry(opts: WikiRefsOptions, html: string, entries: seq<(string, string)>)
    requires opts.resolveEmbedContent.Some?
    ensures exists ix :: Picks(ix, entries, Substitute(opts, html, entries).resolved)
  {
    if entries == [] {
      var none: seq<nat> := [];
      assert Substitute(opts, html, entries).resolved == [];
      assert Picks(none, entries, []);
    } else {
      var init, e := entries[..|entries| - 1], entries[|entries| - 1];
      SubstituteOncePerEntry(opts, html, init);
      var before := Substitute(opts, html, init);
      var q := Substitute(opts, html, entries).resolved;
      assert q == before.resolved || q == before.resolved + [e.1] by {
        assert Substitute(opts, html, entries) == Step(opts, before, e);
      }
      var ix: seq<nat> :| Picks(ix, init, before.resolved);
      PicksGrow(ix, entries, before.resolved);
    }
  }

  /** A choice of entries stays one when an entry is appended, and it may pick that last entry. */
  lemma PicksGrow(ix: seq<nat>, entries: seq<(string, string)>, resolved: seq<string>)
    requires entries != [] && Picks(ix, entries[..|entries| - 1], resolved)
    ensures Picks(ix, entries, resolved)
    ensures Picks(ix + [|entries| - 1], entries, resolved + [entries[|entries| - 1].1])
  {
  }

  /** When no registered placeholder is in the HTML, nothing is resolved and the HTML is returned as it is. */
  lemma {:induction false} SubstituteNothingPresent(opts: WikiRefsOptions, html: string, entries: seq<(string, string)>)
    requires opts.resolveEmbedContent.Some?
    requires forall i :: 0 <= i < |entries| ==> !HasMatch(html, PlaceholderHead(entries[i].0))
    ensures Substitute(opts, html, entries) == Progress(html, [])
  {
    if entries != [] {
      SubstituteNothingPresent(opts, html, entries[..|entries| - 1]);
    }
  }

  /**
    A document embed rendered into a page is resolved by its registry entry:
    its placeholder becomes the substitution and the text in front of it
    stays, provided no earlier text already matches the placeholder pattern.
   */
  lemma DocumentEmbedResolves(opts: WikiRefsOptions, before: string, filename: string, id: string, after: string,
                              resolved: seq<string>)
    requires opts.resolveEmbedContent.Some?
    requires '<' !in filename
    requires var html := before + DocumentHtml(opts, filename, id) + after;
      NoMatchBefore(html, |before + DocumentHead(opts, filename)|, PlaceholderHead(id))
    ensures var html := before + DocumentHtml(opts, filename, id) + after;
      var r := Substitution(opts, filename);
      Step(opts, Progress(html, resolved), (id, filename))
      == Progress(before + DocumentHead(opts, filename) + r + ReplaceAll(DocumentTail + after, PlaceholderHead(id), r),
                  resolved + [filename])
  {
    var pre := before + DocumentHead(opts, filename);
    var p := PlaceholderDiv(id, filename);
    var rest := DocumentTail + after;
    DocumentSplits(before, DocumentHead(opts, filename), p, after);
    PlaceholderMatches(id, filename, rest);
    ReplaceAllFirst(pre, p, rest, PlaceholderHead(id), Substitution(opts, filename));
  }

  /** The document HTML holds the placeholder `<div>` (with the file name in `data-filename`) right after its head. */
  lemma DocumentPlaceholder(opts: WikiRefsOptions, filename: string, id: string)
    ensures StartsAt(DocumentHtml(opts, filename, id), |DocumentHead(opts, filename)|, PlaceholderDiv(id, filename))
    ensures '<' !in filename ==>
      MatchPrefix(DocumentHtml(opts, filename, id)[|DocumentHead(opts, filename)|..], PlaceholderHead(id))
      == Some(|PlaceholderDiv(id, filename)|)
  {
    PlacedAt(DocumentHead(opts, filename), PlaceholderDiv(id, filename), DocumentTail);
    if '<' !in filename {
      PlaceholderMatches(id, filename, DocumentTail);
    }
  }

  lemma PlacedAt(h: string, p: string, t: string)
    ensures StartsAt(h + p + t, |h|, p) && (h + p + t)[|h|..] == p + t
  {
    assert (h + p + t)[|h|..] == p + t;
    assert (p + t)[..|p|] == p;
  }

  lemma DocumentSplits(before: string, head: string, p: string, after: string)
    ensures before + (head + p + DocumentTail) + after == (before + head) + (p + (DocumentTail + after))
  {
  }

  lemma TailRegroups(head: string, p: string)
    ensures head + (p + "\n") + "</div>\n" + "</div>\n</p>\n" == head + p + DocumentTail
  {
  }

  /** Map keys are distinct, and every key is an id the renderer can produce. */
  ghost predicate ValidRegistry(entries: seq<(string, string)>) {
    && (forall i, j :: 0 <= i < j < |entries| ==> entries[i].0 != entries[j].0)
    && (forall i :: 0 <= i < |entries| ==> IsPlaceholderId(entries[i].0))
  }

  /** Registering a fresh id keeps the registry valid. */
  lemma RegisterFresh(entries: seq<(string, string)>, id: string, filename: string)
    requires ValidRegistry(entries) && IsPlaceholderId(id)
    requires forall i :: 0 <= i < |entries| ==> entries[i].0 != id
    ensures ValidRegistry(entries + [(id, filename)])
  {
  }

  /**
    The extension's state: the per-instance `embedPlaceholders` map from
    placeholder id to file name (a sequence of entries in insertion order),
    and the `addEmbed` calls made so far.
   */
  class EmbedExtension {
    const opts: WikiRefsOptions
    const platform: Platform
    var placeholders: seq<(string, string)>
    var embedCalls: seq<string>

    ghost predicate Valid()
      reads this
    {
      ValidRegistry(placeholders)
    }

    constructor(opts: WikiRefsOptions, platform: Platform)
      ensures Valid()
      ensures this.opts == opts && this.platform == platform
      ensures placeholders == [] && embedCalls == []
    {
      this.opts := opts;
      this.platform := platform;
      placeholders := [];
      embedCalls := [];
    }

    /**
      `renderer(token)`, with `id` the fresh placeholder id. The media branch
      leaves the registry alone; the document branch adds exactly the entry
      `id -> filename`. Either branch calls `addEmbed(filename)` once.
     */
    method Render(token: EmbedToken, id: string) returns (html: string)
      requires Valid()
      requires IsPlaceholderId(id)
      requires forall i :: 0 <= i < |placeholders| ==> placeholders[i].0 != id
      modifies this
      ensures Valid()
      ensures html == EmbedHtml(opts, platform, token.filename, id)
      ensures platform.isMedia(token.filename) ==> placeholders == old(placeholders)
      ensures !platform.isMedia(token.filename) ==> placeholders == old(placeholders) + [(id, token.filename)]
      ensures opts.addEmbed ==> embedCalls == old(embedCalls) + [token.filename]
      ensures !opts.addEmbed ==> embedCalls == old(embedCalls)
    {
      var filename := token.filename;
      html := RenderHtml(filename, id);
      if !platform.isMedia(filename) {
        Register(id, filename);
      }
      if opts.addEmbed {
        embedCalls := embedCalls + [filename];
      }
    }

    /** `embedPlaceholders.set(id, filename)` for an id not yet registered. */
    method Register(id: string, filename: string)
      requires Valid() && IsPlaceholderId(id)
      requires forall i :: 0 <= i < |placeholders| ==> placeholders[i].0 != id
      modifies this
      ensures Valid()
      ensures placeholders == old(placeholders) + [(id, filename)]
      ensures embedCalls == old(embedCalls)
    {
      RegisterFresh(placeholders, id, filename);
      placeholders := placeholders + [(id, filename)];
    }

    /** The HTML the renderer returns, by branch. */
    method RenderHtml(filename: string, id: string) returns (html: string)
      ensures html == EmbedHtml(opts, platform, filename, id)
    {
      if platform.isMedia(filename) {
        html := RenderMedia(filename);
      } else {
        html := RenderDocument(filename, id);
      }
    }

    /** The media branch of the renderer: the media element wrapped in a `<p><span>`. */
    method RenderMedia(filename: string) returns (html: string)
      ensures html == MediaHtml(opts, platform, filename)
    {
      var n := Names(opts);
      html := MediaOpen(n, Hyphenate(filename));
      html := html + MediaTag(MediaElementOf(opts, platform, filename));
      html := html + "</span>\n</p>\n";
    }

    /** The document branch of the renderer: title, link icon and the placeholder, inside the wrapper. */
    method RenderDocument(filename: string, id: string) returns (html: string)
      ensures html == DocumentHtml(opts, filename, id)
    {
      var n := Names(opts);
      html := "<p>\n<div class=\"" + n.embedWrapper + "\">\n";
      html := html + ("<div class=\"" + n.embedTitle + "\">\n");
      html := html + (AnchorHtml(TitleAnchor(opts, filename)) + "\n");
      html := html + "</div>\n";
      html := html + ("<div class=\"" + n.embedLink + "\">\n");
      html := html + (AnchorHtml(IconAnchor(opts, filename)) + "\n</div>\n");
      html := html + ("<div class=\"" + n.embedContent + "\">\n");
      var head := html;
      assert head == DocumentHead(opts, filename);
      var p := PlaceholderDiv(id, filename);
      html := html + (p + "\n");
      html := html + "</div>\n";
      html := html + "</div>\n</p>\n";
      TailRegroups(head, p);
    }

    /**
      `hooks.postprocess(html)`: without a content resolver or with an empty
      registry the HTML is returned and the registry kept; otherwise the
      registry is emptied and its entries, in insertion order, are
      substituted one by one. `resolved` lists the resolver's calls.
     */
    method Postprocess(html: string) returns (out: string, resolved: seq<string>)
      requires Valid()
      modifies this
      ensures Valid()
      ensures embedCalls == old(embedCalls)
      ensures opts.resolveEmbedContent.None? || |old(placeholders)| == 0 ==>
        out == html && resolved == [] && placeholders == old(placeholders)
      ensures opts.resolveEmbedContent.Some? && |old(placeholders)| > 0 ==>
        placeholders == [] && Progress(out, resolved) == Substitute(opts, html, old(placeholders))
    {
      if opts.resolveEmbedContent.None? || |placeholders| == 0 {
        return html, [];
      }
      var entries := placeholders;
      out := html;
      resolved := [];
      placeholders := [];
      var k := 0;
      assert entries[..0] == [];
      while k < |entries|
        invariant 0 <= k <= |entries|
        invariant placeholders == [] && embedCalls == old(embedCalls)
        invariant Substitute(opts, html, entries[..k]) == Progress(out, resolved)
      {
        assert entries[..k + 1][..k] == entries[..k];
        out, resolved := ResolveEntry(out, resolved, entries[k]);
        k := k + 1;
      }
      assert entries[..|entries|] == entries;
    }

    /** One turn of the loop: a placeholder still present is resolved and every match of it replaced. */
    method ResolveEntry(html: string, resolved: seq<string>, entry: (string, string))
      returns (out: string, resolvedNow: seq<string>)
      requires opts.resolveEmbedContent.Some?
      ensures Progress(out, resolvedNow) == Step(opts, Progress(html, resolved), entry)
    {
      var (id, filename) := entry;
      out, resolvedNow := html, resolved;
      if HasMatch(html, PlaceholderHead(id)) {
        var content := opts.resolveEmbedContent.value(filename);
        resolvedNow := resolved + [filename];
        if Truthy(content) {
          out := ReplaceAll(html, PlaceholderHead(id), content.value);
        } else {
          out := ReplaceAll(html, PlaceholderHead(id), ErrorString(opts, filename));
        }
      }
    }
  }
}
