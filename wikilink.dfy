/**
  The link renderer of src/lib/wikilink.ts: `start`, the tokenizer that
  accepts a match only at index 0, and the renderer from a token and the
  options to one `<a>` element, together with the `addLink` call it makes.

  The link pattern belongs to a library this model does not contain; its
  match on the source is an input (`LinkMatch`).
 */
module WikiLink {
  import opened Wrappers
  import opened Strings
  import opened Html

  /** One match of the link pattern: offset, whole text and the three groups (an absent group is `None`). */
  datatype LinkMatch = LinkMatch(index: nat, text: string, linkType: Option<string>, filename: string, labelText: Option<string>)

  /** The match's text is the source at the match's offset. */
  predicate LocatedIn(src: string, m: LinkMatch) {
    m.index + |m.text| <= |src| && src[m.index..m.index + |m.text|] == m.text
  }

  /** `start`: 0 when the pattern matches somewhere in the source (`found` is its first match), -1 otherwise. */
  function Start(found: Option<LinkMatch>): (r: int)
    ensures r == 0 <==> found.Some?
    ensures r == -1 <==> found.None?
  {
    if found.Some? then 0 else -1
  }

  /** The token the tokenizer returns. `linkType` is `null` (`None`) when group 1 is falsy. */
  datatype LinkToken = LinkToken(raw: string, linkType: Option<string>, filename: string, labelText: Option<string>)

  /** `tokenizer`: nothing unless the match starts at index 0; otherwise the token of the match's groups. */
  function Tokenize(src: string, found: Option<LinkMatch>): (t: Option<LinkToken>)
    ensures t.Some? <==> found.Some? && found.value.index == 0
    ensures t.Some? ==> t.value.raw == found.value.text
    ensures t.Some? ==> t.value.filename == found.value.filename && t.value.labelText == found.value.labelText
    ensures t.Some? ==> (t.value.linkType.Some? <==> Truthy(found.value.linkType))
    ensures t.Some? && t.value.linkType.Some? ==> t.value.linkType.value == Trim(found.value.linkType.value)
    ensures t.Some? && LocatedIn(src, found.value) ==> t.value.raw <= src
  {
    if found.None? || found.value.index != 0 then None
    else
      var m := found.value;
      var linkType := if Truthy(m.linkType) then Some(Trim(m.linkType.value)) else None;
      Some(LinkToken(m.text, linkType, m.filename, m.labelText))
  }

  /** `opts.resolveHtmlText ? opts.resolveHtmlText(filename) : filename`. */
  function LinkText(opts: WikiRefsOptions, filename: string): Option<string> {
    if opts.resolveHtmlText.Some? then opts.resolveHtmlText.value(filename) else Some(filename)
  }

  /** A link is valid when its href is truthy: an empty or undefined href is invalid. */
  predicate IsValidLink(opts: WikiRefsOptions, filename: string) {
    Truthy(HtmlHref(opts, filename))
  }

  /** The first candidate that is a non-empty string, or the fallback: the display-text search loop. */
  function FirstNonEmpty(candidates: seq<Option<string>>, fallback: string): (r: string)
    ensures (forall i :: 0 <= i < |candidates| ==> !Truthy(candidates[i])) ==> r == fallback
    ensures forall i :: (0 <= i < |candidates| && Truthy(candidates[i])
      && (forall j :: 0 <= j < i ==> !Truthy(candidates[j]))) ==> r == candidates[i].value
    decreases |candidates|
  {
    if candidates == [] then fallback
    else if Truthy(candidates[0]) then candidates[0].value
    else
      var r := FirstNonEmpty(candidates[1..], fallback);
      assert forall i :: 1 <= i < |candidates| ==> candidates[1..][i - 1] == candidates[i];
      r
  }

  /** The display-text loop: start from the filename and stop at the first candidate that is a non-empty string. */
  method ChooseDisplayText(candidates: seq<Option<string>>, filename: string) returns (displayText: string)
    ensures displayText == FirstNonEmpty(candidates, filename)
  {
    displayText := filename;
    var i := 0;
    while i < |candidates|
      invariant 0 <= i <= |candidates|
      invariant FirstNonEmpty(candidates[i..], filename) == FirstNonEmpty(candidates, filename)
    {
      if Truthy(candidates[i]) {
        displayText := candidates[i].value;
        return;
      }
      assert candidates[i..][1..] == candidates[i + 1..];
      i := i + 1;
    }
  }

  /** The display text: the first non-empty of labelText, resolved text and filename, by default the filename. */
  function DisplayText(labelText: Option<string>, htmlText: Option<string>, filename: string): string {
    FirstNonEmpty([labelText, htmlText, Some(filename)], filename)
  }

  /** The label wins when non-empty, then the resolved text, and otherwise the filename. */
  lemma DisplayTextChoice(labelText: Option<string>, htmlText: Option<string>, filename: string)
    ensures Truthy(labelText) ==> DisplayText(labelText, htmlText, filename) == labelText.value
    ensures !Truthy(labelText) && Truthy(htmlText) ==> DisplayText(labelText, htmlText, filename) == htmlText.value
    ensures !Truthy(labelText) && !Truthy(htmlText) ==> DisplayText(labelText, htmlText, filename) == filename
  {
    var cs := [labelText, htmlText, Some(filename)];
    assert DisplayText(labelText, htmlText, filename) == FirstNonEmpty(cs, filename);
    if !Truthy(labelText) && !Truthy(htmlText) {
      if filename != "" {
        assert Truthy(cs[2]) && forall j :: 0 <= j < 2 ==> !Truthy(cs[j]);
      } else {
        assert forall j :: 0 <= j < 3 ==> !Truthy(cs[j]);
      }
    }
    if !Truthy(labelText) && Truthy(htmlText) {
      assert forall j :: 0 <= j < 1 ==> !Truthy(cs[j]);
    }
    if Truthy(labelText) {
      assert Truthy(cs[0]);
    }
  }

  /** A two-element front, then an optional pair, then an optional last element. */
  function Classes<T>(first: T, second: T, pair: Option<(T, T)>, last: Option<T>): (cs: seq<T>)
    ensures |cs| == 2 + (if pair.Some? then 2 else 0) + (if last.Some? then 1 else 0)
    ensures cs[0] == first && cs[1] == second
    ensures pair.Some? ==> cs[2] == pair.value.0 && cs[3] == pair.value.1
    ensures last.Some? ==> cs[|cs| - 1] == last.value
  {
    [first, second] + (if pair.Some? then [pair.value.0, pair.value.1] else []) + (if last.Some? then [last.value] else [])
  }

  /** The classes of a valid link: `wiki link`, then `type reftype__<slug>` for a link type, then `doctype__<slug>`. */
  function LinkClasses(n: ClassNames, linkType: Option<string>, doctype: Option<string>): (cs: seq<string>)
    ensures |cs| == 2 + (if Truthy(linkType) then 2 else 0) + (if Truthy(doctype) then 1 else 0)
    ensures cs[0] == n.wiki && cs[1] == n.link
    ensures Truthy(linkType) ==> cs[2] == n.typeName && cs[3] == n.reftype + Slug(linkType.value)
    ensures Truthy(doctype) ==> cs[|cs| - 1] == n.doctype + Slug(doctype.value)
  {
    var typeClasses := if Truthy(linkType) then Some((n.typeName, n.reftype + Slug(linkType.value))) else None;
    var docClass := if Truthy(doctype) then Some(n.doctype + Slug(doctype.value)) else None;
    Classes(n.wiki, n.link, typeClasses, docClass)
  }

  /**
    The anchor the renderer writes. An invalid link shows its raw text and
    has neither `href` nor `data-href`; a valid one has both, equal.
   */
  function LinkAnchor(opts: WikiRefsOptions, token: LinkToken): (a: Anchor)
    ensures a.href == a.dataHref
    ensures a.href.Some? <==> IsValidLink(opts, token.filename)
    ensures !IsValidLink(opts, token.filename) ==>
      a == Anchor([Names(opts).wiki, Names(opts).link, Names(opts).invalid], None, None, token.raw)
    ensures IsValidLink(opts, token.filename) ==>
      && a.href.value == BaseUrl(opts) + HtmlHref(opts, token.filename).value
      && a.classes == LinkClasses(Names(opts), token.linkType, DocType(opts, token.filename))
      && a.text == DisplayText(token.labelText, LinkText(opts, token.filename), token.filename)
  {
    var n := Names(opts);
    var f := token.filename;
    var htmlHref := HtmlHref(opts, f);
    if !Truthy(htmlHref) then
      Anchor([n.wiki, n.link, n.invalid], None, None, token.raw)
    else
      var href := BaseUrl(opts) + htmlHref.value;
      Anchor(LinkClasses(n, token.linkType, DocType(opts, f)), Some(href), Some(href),
        DisplayText(token.labelText, LinkText(opts, f), f))
  }

  /** What the renderer returns, and the `addLink(type, filename)` call it makes, if any. */
  datatype LinkRender = LinkRender(html: string, linkCall: Option<(string, string)>)

  /** `renderer(token)`. */
  function Render(opts: WikiRefsOptions, token: LinkToken): (r: LinkRender)
    ensures r.html == AnchorHtml(LinkAnchor(opts, token))
    ensures r.linkCall.Some? <==> opts.addLink && IsValidLink(opts, token.filename)
    ensures r.linkCall.Some? ==> r.linkCall.value == (Or(token.linkType, ""), token.filename)
  {
    var a := LinkAnchor(opts, token);
    var call := if opts.addLink && a.href.Some? then Some((Or(token.linkType, ""), token.filename)) else None;
    LinkRender(AnchorHtml(a), call)
  }

  lemma InvalidAnchorText(w: string, l: string, i: string, raw: string)
    ensures AnchorHtml(Anchor([w, l, i], None, None, raw)) == "<a class=\"" + w + " " + l + " " + i + "\">" + raw + "</a>"
  {
    assert [l, i][1..] == [i];
    assert Join([l, i], " ") == l + " " + i;
    assert [w, l, i][1..] == [l, i];
    assert Join([w, l, i], " ") == w + " " + (l + " " + i);
  }

  /** An invalid link renders exactly as `<a class="wiki link invalid">raw</a>` and makes no `addLink` call. */
  lemma RenderInvalid(opts: WikiRefsOptions, token: LinkToken)
    requires !IsValidLink(opts, token.filename)
    ensures var n := Names(opts);
      Render(opts, token).html == "<a class=\"" + n.wiki + " " + n.link + " " + n.invalid + "\">" + token.raw + "</a>"
    ensures Render(opts, token).linkCall.None?
  {
    var n := Names(opts);
    InvalidAnchorText(n.wiki, n.link, n.invalid, token.raw);
  }

  /** Read back from the text, a valid link's `href` and `data-href` are both `baseUrl + href`; an invalid one has neither. */
  lemma RenderReadsBack(opts: WikiRefsOptions, token: LinkToken)
    requires var a := LinkAnchor(opts, token); NoQuote(Join(a.classes, " ")) && (a.href.Some? ==> NoQuote(a.href.value))
    ensures var a := LinkAnchor(opts, token);
      ReadStartTag(Render(opts, token).html) == Some(StartTag(Join(a.classes, " "), a.href, a.href))
    ensures IsValidLink(opts, token.filename) ==>
      var h := Some(BaseUrl(opts) + HtmlHref(opts, token.filename).value);
      ReadStartTag(Render(opts, token).html).value.href == h
      && ReadStartTag(Render(opts, token).html).value.dataHref == h
    ensures !IsValidLink(opts, token.filename) ==>
      ReadStartTag(Render(opts, token).html).value.href.None?
      && ReadStartTag(Render(opts, token).html).value.dataHref.None?
  {
    AnchorReadsBack(LinkAnchor(opts, token));
  }

  /** Without `resolveHtmlHref` every link is valid and points at `baseUrl + '/' + filename`. */
  lemma DefaultHref(opts: WikiRefsOptions, token: LinkToken)
    requires opts.resolveHtmlHref.None?
    ensures IsValidLink(opts, token.filename)
    ensures LinkAnchor(opts, token).href == Some(BaseUrl(opts) + "/" + token.filename)
  {
    assert HtmlHref(opts, token.filename) == Some("/" + token.filename);
    assert ("/" + token.filename)[0] == '/';
    assert BaseUrl(opts) + ("/" + token.filename) == BaseUrl(opts) + "/" + token.filename;
  }
}
