/**
  What the three extensions share: the options record (`WikiRefsOptions` of
  src/lib/types.ts), the CSS class names with their defaults, and the `<a>`
  element every renderer writes, with a reader that recovers its attributes
  from the text.
 */
module Html {
  import opened Wrappers
  import opened Strings

  /** JavaScript truthiness of a `string | undefined`: defined and non-empty. */
  predicate Truthy(o: Option<string>) {
    o.Some? && o.value != ""
  }

  /** `o || d` for a `string | undefined`. */
  function Or(o: Option<string>, d: string): string {
    if Truthy(o) then o.value else d
  }

  /** A caller-supplied resolver from a file name to `string | undefined`. */
  type Resolver = string -> Option<string>

  /** `cssNames`: optional overrides of every class name (the field `typeName` holds `cssNames.type`). */
  datatype CssNames = CssNames(
    wiki: Option<string>, invalid: Option<string>,
    attr: Option<string>, link: Option<string>, typeName: Option<string>, embed: Option<string>,
    reftype: Option<string>, doctype: Option<string>,
    attrbox: Option<string>, attrboxTitle: Option<string>,
    embedWrapper: Option<string>, embedTitle: Option<string>, embedLink: Option<string>,
    embedContent: Option<string>, embedLinkIcon: Option<string>, linkIcon: Option<string>,
    embedMedia: Option<string>, embedAudio: Option<string>, embedImage: Option<string>,
    embedVideo: Option<string>)

  /** `attrs`: whether the attribute box is rendered, and its title. */
  datatype AttrsOptions = AttrsOptions(render: Option<bool>, title: Option<string>)

  /** `embeds`: the prefix of the message that replaces an unresolved embed. */
  datatype EmbedsOptions = EmbedsOptions(errorContent: Option<string>)

  /**
    The options record. Resolvers that may be absent are `Option`s; each
    metadata callback (`addAttr`, `addLink`, `addEmbed`) is modelled by
    whether it is present, and its calls are recorded by the extensions.
   */
  datatype WikiRefsOptions = WikiRefsOptions(
    resolveHtmlText: Option<Resolver>,
    resolveHtmlHref: Option<Resolver>,
    resolveDocType: Option<Resolver>,
    resolveEmbedContent: Option<Resolver>,
    addAttr: bool, addLink: bool, addEmbed: bool,
    baseUrl: Option<string>,
    cssNames: Option<CssNames>,
    attrs: Option<AttrsOptions>,
    embeds: Option<EmbedsOptions>)

  /** The class names in effect once every `cssNames.x || 'default'` is evaluated. */
  datatype ClassNames = ClassNames(
    wiki: string, invalid: string,
    attr: string, link: string, typeName: string, embed: string,
    reftype: string, doctype: string,
    attrbox: string, attrboxTitle: string,
    embedWrapper: string, embedTitle: string, embedLink: string,
    embedContent: string, embedLinkIcon: string, linkIcon: string,
    embedMedia: string, embedAudio: string, embedImage: string,
    embedVideo: string)

  const NoOverrides := CssNames(
    None, None, None, None, None, None, None, None, None, None,
    None, None, None, None, None, None, None, None, None, None)

  const DefaultNames := ClassNames(
    "wiki", "invalid", "attr", "link", "type", "embed", "reftype__", "doctype__",
    "attrbox", "attrbox-title", "embed-wrapper", "embed-title", "embed-link",
    "embed-content", "embed-link-icon", "link-icon", "embed-media", "embed-audio",
    "embed-image", "embed-video")

  /** `opts.cssNames || {}` followed by `cssNames.x || 'default'` for every name. */
  function Names(opts: WikiRefsOptions): (n: ClassNames)
    ensures opts.cssNames.None? ==> n == DefaultNames
    ensures n.wiki != "" && n.invalid != "" && n.attrbox != ""
  {
    var c := if opts.cssNames.Some? then opts.cssNames.value else NoOverrides;
    ClassNames(
      Or(c.wiki, "wiki"), Or(c.invalid, "invalid"),
      Or(c.attr, "attr"), Or(c.link, "link"), Or(c.typeName, "type"), Or(c.embed, "embed"),
      Or(c.reftype, "reftype__"), Or(c.doctype, "doctype__"),
      Or(c.attrbox, "attrbox"), Or(c.attrboxTitle, "attrbox-title"),
      Or(c.embedWrapper, "embed-wrapper"), Or(c.embedTitle, "embed-title"), Or(c.embedLink, "embed-link"),
      Or(c.embedContent, "embed-content"), Or(c.embedLinkIcon, "embed-link-icon"), Or(c.linkIcon, "link-icon"),
      Or(c.embedMedia, "embed-media"), Or(c.embedAudio, "embed-audio"), Or(c.embedImage, "embed-image"),
      Or(c.embedVideo, "embed-video"))
  }

  /** `opts.baseUrl || ''`. */
  function BaseUrl(opts: WikiRefsOptions): string {
    Or(opts.baseUrl, "")
  }

  /** `opts.resolveHtmlHref ? opts.resolveHtmlHref(filename) : '/' + filename`, the href of links and embeds. */
  function HtmlHref(opts: WikiRefsOptions, filename: string): Option<string> {
    if opts.resolveHtmlHref.Some? then opts.resolveHtmlHref.value(filename) else Some("/" + filename)
  }

  /** `opts.resolveDocType ? opts.resolveDocType(filename) : ''`. */
  function DocType(opts: WikiRefsOptions, filename: string): Option<string> {
    if opts.resolveDocType.Some? then opts.resolveDocType.value(filename) else Some("")
  }

  /** An `<a>` element: its classes, its optional `href` and `data-href`, and its content. */
  datatype Anchor = Anchor(classes: seq<string>, href: Option<string>, dataHref: Option<string>, text: string)

  function AttributeText(name: string, value: Option<string>): string {
    if value.Some? then " " + name + "=\"" + value.value + "\"" else ""
  }

  /** `<a class="c1 c2"[ href="h"][ data-href="d"]>text</a>`, the shape all three renderers write. */
  function AnchorHtml(a: Anchor): string {
    "<a class=\"" + Join(a.classes, " ") + "\"" + AttributeText("href", a.href)
    + AttributeText("data-href", a.dataHref) + ">" + a.text + "</a>"
  }

  /** The attributes of an `<a ...>` start tag, as read back from HTML text. */
  datatype StartTag = StartTag(classAttr: string, href: Option<string>, dataHref: Option<string>)

  predicate NoQuote(s: string) {
    '"' !in s
  }

  /** Splits `s` at its first double quote. */
  function UpToQuote(s: string): Option<(string, string)> {
    var i := IndexOf(s, "\"", 0);
    if i < 0 then None else Some((s[..i], s[i + 1..]))
  }

  /** Reads ` name="value"` at the front of `s`, if it is there; returns the value and the rest. */
  function ReadAttribute(s: string, name: string): (Option<string>, string) {
    var key := " " + name + "=\"";
    if |key| <= |s| && s[..|key|] == key then
      match UpToQuote(s[|key|..])
      case Some((v, rest)) => (Some(v), rest)
      case None => (None, s)
    else (None, s)
  }

  /** Reads `<a class="…"[ href="…"][ data-href="…"]>` at the front of `html`. */
  function ReadStartTag(html: string): Option<StartTag> {
    var open := "<a class=\"";
    if |open| <= |html| && html[..|open|] == open then
      match UpToQuote(html[|open|..])
      case None => None
      case Some((classAttr, rest)) =>
        var (href, rest') := ReadAttribute(rest, "href");
        var (dataHref, rest'') := ReadAttribute(rest', "data-href");
        if rest'' != [] && rest''[0] == '>' then Some(StartTag(classAttr, href, dataHref)) else None
    else None
  }

  lemma {:induction false} UpToQuoteSplits(v: string, rest: string)
    requires NoQuote(v)
    ensures UpToQuote(v + "\"" + rest) == Some((v, rest))
  {
    var s := v + "\"" + rest;
    assert StartsAt(s, |v|, "\"");
    forall j | 0 <= j < |v| ensures !StartsAt(s, j, "\"") {
      assert s[j..j + 1] == [v[j]];
    }
    assert s[..|v|] == v && s[|v| + 1..] == rest;
  }

  lemma ReadPresentAttribute(name: string, v: string, rest: string)
    requires NoQuote(v)
    ensures ReadAttribute(" " + name + "=\"" + v + "\"" + rest, name) == (Some(v), rest)
  {
    var key := " " + name + "=\"";
    var s := key + v + "\"" + rest;
    assert s[..|key|] == key;
    assert s[|key|..] == v + "\"" + rest;
    UpToQuoteSplits(v, rest);
  }

  lemma ReadAbsentAttribute(s: string, name: string)
    requires |name| > 0 && |s| >= 2 && (s[0] != ' ' || s[1] != name[0])
    ensures ReadAttribute(s, name) == (None, s)
  {
    var key := " " + name + "=\"";
    assert !(|key| <= |s| && s[..|key|] == key) by {
      if |key| <= |s| {
        assert s[..|key|][0] == s[0] && s[..|key|][1] == s[1];
        assert key[0] == ' ' && key[1] == name[0];
      }
    }
  }

  lemma ReadStartTagFront(c: string, tail: string, href: Option<string>, rest: string,
                          dataHref: Option<string>, rest': string)
    requires NoQuote(c)
    requires ReadAttribute(tail, "href") == (href, rest)
    requires ReadAttribute(rest, "data-href") == (dataHref, rest')
    requires rest' != [] && rest'[0] == '>'
    ensures ReadStartTag("<a class=\"" + c + "\"" + tail) == Some(StartTag(c, href, dataHref))
  {
    FrontSplits("<a class=\"", c, tail);
    UpToQuoteSplits(c, tail);
  }

  /** Cutting `front + c + '"' + tail` after `front`. */
  lemma FrontSplits(front: string, c: string, tail: string)
    ensures var h := front + c + "\"" + tail;
      |front| <= |h| && h[..|front|] == front && h[|front|..] == c + "\"" + tail
  {
    var h := front + c + "\"" + tail;
    assert h == front + (c + "\"" + tail);
  }

  /** The serialized anchor reads back as the attributes it was written from, when no value holds a quote. */
  lemma AnchorReadsBack(a: Anchor)
    requires NoQuote(Join(a.classes, " "))
    requires a.href.Some? ==> NoQuote(a.href.value)
    requires a.dataHref.Some? ==> NoQuote(a.dataHref.value)
    ensures ReadStartTag(AnchorHtml(a)) == Some(StartTag(Join(a.classes, " "), a.href, a.dataHref))
  {
    var c := Join(a.classes, " ");
    var afterD := ">" + a.text + "</a>";
    var afterH := AttributeText("data-href", a.dataHref) + afterD;
    var tail := AttributeText("href", a.href) + afterH;
    assert AnchorHtml(a) == "<a class=\"" + c + "\"" + tail;
    if a.href.Some? {
      assert tail == " " + "href" + "=\"" + a.href.value + "\"" + afterH;
      ReadPresentAttribute("href", a.href.value, afterH);
    } else {
      assert tail == afterH;
      if a.dataHref.Some? {
        assert tail[0] == ' ' && tail[1] == 'd';
      } else {
        assert tail[0] == '>';
      }
      ReadAbsentAttribute(tail, "href");
    }
    assert ReadAttribute(tail, "href") == (a.href, afterH);
    if a.dataHref.Some? {
      assert afterH == " " + "data-href" + "=\"" + a.dataHref.value + "\"" + afterD;
      ReadPresentAttribute("data-href", a.dataHref.value, afterD);
    } else {
      assert afterH == afterD;
      assert afterH[0] == '>';
      ReadAbsentAttribute(afterH, "data-href");
    }
    assert ReadAttribute(afterH, "data-href") == (a.dataHref, afterD);
    ReadStartTagFront(c, tail, a.href, afterH, a.dataHref, afterD);
  }
}
