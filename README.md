# marked-wikirefs, modelled in Dafny

This project models the three `marked` extensions of the wikirefs family in
Dafny and proves properties of the model:

- the **attribute extension** (`src/lib/wikiattr.ts`), with these parts:
  - the `isTop` context check;
  - the per-instance attribute collection;
  - the pre-processing hook, which collects the attributes at the top of the
    document and cuts their text out of the markdown;
  - the attribute box;
  - the post-processing hook, which prepends the box once;
- the **link renderer** (`src/lib/wikilink.ts`): `start`, the tokenizer,
  which accepts a match at index 0 only, and the renderer from a token to an
  `<a>` element plus its `addLink` event;
- the **embed extension** (`src/lib/wikiembed.ts`), with these parts:
  - `start` and the tokenizer;
  - the renderer's media branch;
  - the renderer's document branch, which leaves a placeholder `<div>` and
    registers it in the per-instance placeholder map;
  - the post-processing hook, which empties that map and replaces each
    placeholder still present with resolved content or an error message.

Files:

| file | module | contents |
|---|---|---|
| `wrappers.dfy` | `Wrappers` | `Option`, which models JavaScript's `T \| undefined` |
| `strings.dfy` | `Strings` | the JavaScript string operations the extensions use: `trim`, ASCII `toLowerCase`, `split('\n')[0]`, `indexOf`, `lastIndexOf`, `includes`, global-regex counts, `join`, and the CSS slug rule that three files repeat |
| `html.dfy` | `Html` | JavaScript truthiness, the options record, the CSS class names with their defaults, the `<a>` serializer every renderer uses and a reader that recovers its attributes from the text |
| `wikiattr.dfy` | `WikiAttr` | the attribute extension: a `class` with the collection and the `addAttr` log |
| `wikilink.dfy` | `WikiLink` | the link renderer, as pure functions |
| `wikiembed.dfy` | `WikiEmbed` | the embed extension: a `class` with the placeholder map and the `addEmbed` log |

How the outside world enters the model:

- The patterns of the `wikirefs` library are not part of this model. Their
  matches are parameters:
  - `WikiAttr.AttrMatch` is one attribute match, with its link targets; it is
    tied to the markdown by `WikiAttr.MatchesOf`;
  - `WikiLink.LinkMatch` and `WikiEmbed.EmbedMatch` are the first match of
    the link and the embed pattern.
- `isMedia`, `path.extname` and the audio, image and video extension sets
  are the record `WikiEmbed.Platform`.
- `Math.random` enters as the placeholder id, a parameter of
  `EmbedExtension.Render`.
- Resolvers are functions `string -> Option<string>`. `None` stands for
  `undefined`, and for a rejected promise in the content resolver.
- Each callback (`addAttr`, `addLink`, `addEmbed`) is modelled by whether it
  is present. Its calls are recorded: in a log field of the class, or in the
  renderer's result.

Three validity rules apply, as the code wrote them:

- In the attribute box, only an `undefined` href is invalid, so an empty href
  gives a valid link.
- For links and embeds, any falsy href is invalid.
- The indented-code rule rejects a first line that has a tab anywhere.

## Model

| member | source | states |
|---|---|---|
| Strings.Trim | src/lib/wikilink.ts:23 | the result has no leading or trailing `\s` character and is no longer than the input (TrimStart/TrimEnd: exactly the leading/trailing whitespace is removed) |
| Strings.TrimStart | src/lib/wikiattr.ts:162 | removes exactly the leading run of `\s` characters |
| Strings.TrimEnd | src/lib/wikiattr.ts:162 | removes exactly the trailing run of `\s` characters |
| Strings.ToLowerAscii | src/lib/wikiembed.ts:42 | every character is mapped by the ASCII lower-casing, length kept |
| Strings.SpacesToHyphens | src/lib/wikiembed.ts:41 | every space becomes `-`, every other character is kept |
| Strings.KeepWordAndHyphen | src/lib/wikiattr.ts:54 | keeps only word characters and hyphens, each taken from the input, and leaves a string of such characters unchanged; `KeepWordAndHyphenConcat` pins down which |
| Strings.KeepWordAndHyphenConcat | src/lib/wikiattr.ts:54 | the filter of a concatenation is the concatenation of the filters, so every word character and hyphen is kept, in order |
| Strings.KeepWordAndHyphenChar | src/lib/wikiattr.ts:54 | a single character is kept exactly when it is a word character or a hyphen |
| Strings.Hyphenate | src/lib/wikiembed.ts:41 | the media slug has no upper-case letter and no space |
| Strings.Slug | src/lib/wikiattr.ts:54 | every character of a class-name slug is one of `[a-z0-9_-]` |
| Strings.SlugIdempotent | src/lib/wikilink.ts:51 | the slug of a slug is the slug itself |
| Strings.SlugCharsAreFixed | src/lib/wikiattr.ts:58 | a string made of slug characters is its own slug |
| Strings.FirstLine | src/lib/wikiattr.ts:82 | the first line is a prefix without line feed, followed by a line feed when shorter than the text |
| Strings.FirstLineOfJoin | src/lib/wikiattr.ts:82 | whatever follows the first line feed does not change the first line |
| Strings.IndexOf | src/lib/wikiattr.ts:111 | returns the first occurrence at or after `from`, or -1 when there is none |
| Strings.LastIndexOf | src/lib/wikiattr.ts:109 | returns the last occurrence, or -1 when there is none |
| Strings.CountMatchesPositive | src/lib/wikiattr.ts:115 | the left-to-right count of a pattern is positive exactly when the pattern occurs |
| Strings.CountMatchesAbsent | src/lib/wikiattr.ts:126 | there is nothing to count in a text without the pattern's first character |
| Strings.CountMatches | src/lib/wikiattr.ts:115 | the non-overlapping count of `match(/p/g)`: the occurrences found never take more room than the text has |
| Html.Names | src/lib/wikiattr.ts:29 | without `cssNames` every class name is its default; the wiki, invalid and attrbox names are never empty |
| Html.AnchorReadsBack | src/lib/wikilink.ts:69 | a serialized `<a>` reads back as the class, `href` and `data-href` it was written from, when no value holds a quote |
| Html.HtmlHref | src/lib/wikilink.ts:37 | the href `resolveHtmlHref` returns, or `'/' + filename` without a resolver; `WikiLink.DefaultHref` states the consequence for links |
| WikiAttr.LeadingSpaces | src/lib/wikiattr.ts:87 | counts exactly the leading spaces that `^ *` consumes |
| WikiAttr.BulletItemIff | src/lib/wikiattr.ts:87-89 | the bullet test holds iff the line is optional spaces, one of `-*+`, then a `\s` character |
| WikiAttr.NumberedItemIff | src/lib/wikiattr.ts:92-94 | the numbered test holds iff the line is optional spaces, digits, `.` or `)`, then a `\s` character |
| WikiAttr.BlockquoteIff | src/lib/wikiattr.ts:97-99 | the blockquote test holds iff the line is optional spaces, `>`, then a `\s` character |
| WikiAttr.IndentedCodeIff | src/lib/wikiattr.ts:102-104 | the indented-code test holds iff the line begins with four spaces or has a tab anywhere |
| WikiAttr.InFencedCodeIff | src/lib/wikiattr.ts:107-121 | the fence test holds iff an odd number of fences precede the position, and a fence starts after it but not at it |
| WikiAttr.InCodeSpanIff | src/lib/wikiattr.ts:124-134 | the code-span test holds iff an odd number of backticks precede the position and one occurs at or after it |
| WikiAttr.IsTopIff | src/lib/wikiattr.ts:75-137 | `isTop` accepts exactly when the position is in range, the first line starts no list item, blockquote or indented code and has no tab, and the position is neither in a fence nor in a code span |
| WikiAttr.IsTop | src/lib/wikiattr.ts:75-137 | `isTop`: accepts only a position inside the document and a first line with fewer than four leading spaces; `WikiAttr.IsTopIff` gives the exact condition |
| WikiAttr.IsTopWithoutBackticks | src/lib/wikiattr.ts:77-136 | in a document without backticks only the range and the first-line rules can reject |
| WikiAttr.IsTopReadsFirstLineOnly | src/lib/wikiattr.ts:82 | the matched text after its first line feed never changes the verdict |
| WikiAttr.Added | src/lib/wikiattr.ts:12-16 | adding a target appends it under its type, creates the type's list (in last position) only when the type is new, and leaves other types alone |
| WikiAttr.AddAll | src/lib/wikiattr.ts:166-169 | adding a match's targets appends them all, in order, under one type |
| WikiAttr.ValidMatchesMembers | src/lib/wikiattr.ts:156-160 | the accepted matches are exactly the input matches that `isTop` accepts |
| WikiAttr.ValidMatches | src/lib/wikiattr.ts:156-160 | the matches the first pass accepts, in order: never more than were scanned; `WikiAttr.ValidMatchesMembers` states that they are exactly the scanned ones `isTop` accepts |
| WikiAttr.ValidMatchesOrdered | src/lib/wikiattr.ts:156-183 | the accepted matches stay located, increasing and non-overlapping |
| WikiAttr.Collect | src/lib/wikiattr.ts:156-169 | the collection the pre-pass builds is well formed: each type once, each with a target |
| WikiAttr.CollectTargets | src/lib/wikiattr.ts:160-169 | the targets under a type are those of all accepted matches with that trimmed type, in order, duplicates kept |
| WikiAttr.CollectIsAddPairs | src/lib/wikiattr.ts:166-168 | the collection equals the result of the recorded `addToCollection` calls replayed one by one |
| WikiAttr.AddPairsTypes | src/lib/wikiattr.ts:12-16 | replaying calls lists each type once, in first-call order, and keys exactly the called types |
| WikiAttr.CollectTypeOrder | src/lib/wikiattr.ts:13-14 | the collection's types are the distinct called types in the order of their first call |
| WikiAttr.AcceptedStep | src/lib/wikiattr.ts:160-177 | one more accepted match extends the collection, the `addAttr` log and the spans as the loop body does |
| WikiAttr.Replacements | src/lib/wikiattr.ts:172-177 | one span per accepted match, from its start to its end |
| WikiAttr.ReplacementsDisjoint | src/lib/wikiattr.ts:172-177 | the spans are non-empty, inside the markdown, increasing and non-overlapping |
| WikiAttr.KeepLength | src/lib/wikiattr.ts:188-193 | the cut text is shorter than the input by exactly the spans' total length |
| WikiAttr.Keep | src/lib/wikiattr.ts:188-193 | the text from a position on with every span cut out; never longer than that text |
| WikiAttr.Cut | src/lib/wikiattr.ts:185-195 | the markdown with every span cut out; never longer than the markdown, and the markdown itself without spans |
| WikiAttr.KeepSplit | src/lib/wikiattr.ts:188-193 | text before the first span is kept as it is |
| WikiAttr.Reverse | src/lib/wikiattr.ts:186 | the reverse lists the spans last to first |
| WikiAttr.ReverseIsDescending | src/lib/wikiattr.ts:186 | reversing increasing spans gives the spans sorted by descending start, same elements |
| WikiAttr.CutStep | src/lib/wikiattr.ts:189-192 | one turn of the removal loop cuts exactly the next span from the text cut so far |
| WikiAttr.CutFromAll | src/lib/wikiattr.ts:188-193 | after all turns the text is the markdown with every span cut; before any it is the markdown |
| WikiAttr.ApplyReplacements | src/lib/wikiattr.ts:185-195 | the descending removal loop returns the markdown with every span cut out |
| WikiAttr.Descriptions | src/lib/wikiattr.ts:38 | one `<dd>` entry per target, in order |
| WikiAttr.ItemsStructure | src/lib/wikiattr.ts:35-65 | the box holds one `<dt>` per type in collection order and one `<dd>` per stored target in stored order |
| WikiAttr.EntryItemsParts | src/lib/wikiattr.ts:36-38 | a type's entry is its `<dt>` followed by its targets' `<dd>`s |
| WikiAttr.AttrClasses | src/lib/wikiattr.ts:48-61 | a valid target's classes are `attr wiki reftype__<slug>` (just `wiki` for an empty type), then `doctype__<slug>` when the doctype is truthy |
| WikiAttr.AttrAnchor | src/lib/wikiattr.ts:39-63 | an undefined href gives `attr wiki invalid` and `[[target]]` (or `[[error]]`) without href; otherwise `href == data-href == baseUrl + href` and the resolved text or the target is shown |
| WikiAttr.RenderItemsAppend | src/lib/wikiattr.ts:35-65 | rendering entries distributes over concatenation |
| WikiAttr.BoxOpenAsWritten | src/lib/wikiattr.ts:30-32 | the box opening is the three template lines, in order |
| WikiAttr.AttrBoxShape | src/lib/wikiattr.ts:25-30 | the box is empty exactly when the collection is, and a non-empty box carries the `class="attrbox"` marker right after `<aside `, where the post-pass looks for it |
| WikiAttr.AttrBox | src/lib/wikiattr.ts:24-69 | what `renderAttributeBox` returns for a collection: empty exactly when the collection has no type |
| WikiAttr.PostprocessPrepends | src/lib/wikiattr.ts:198-209 | the post-pass changes the HTML iff rendering is on, the collection is non-empty and the HTML has no marker, and then it prepends exactly the box |
| WikiAttr.PostprocessResult | src/lib/wikiattr.ts:198-209 | what the post-pass returns: the HTML always survives unchanged as the tail of the result |
| WikiAttr.PostprocessIdempotent | src/lib/wikiattr.ts:201-208 | running the post-pass twice gives the result of running it once |
| WikiAttr.AttrExtension.constructor | src/lib/wikiattr.ts:8 | a new instance starts with an empty collection and no calls |
| WikiAttr.AttrExtension.AddToCollection | src/lib/wikiattr.ts:12-21 | the collection becomes `Added(old, type, target)` and the `addAttr` call is logged only when the callback is present |
| WikiAttr.AttrExtension.RenderAttributeBox | src/lib/wikiattr.ts:24-69 | returns exactly `AttrBox` of the current collection: nothing for an empty one, else the opening lines, the entries and the closing lines |
| WikiAttr.AttrExtension.RenderEntries | src/lib/wikiattr.ts:35-65 | the outer loop renders, for each type in collection order, its `<dt>` followed by its targets' `<dd>`s |
| WikiAttr.AttrExtension.RenderTargets | src/lib/wikiattr.ts:38-64 | the inner loop renders one `<dd>` per target, in order |
| WikiAttr.AttrExtension.Preprocess | src/lib/wikiattr.ts:142-196 | the hook clears and rebuilds the collection from the accepted matches, logs their `addAttr` calls, and returns the markdown with exactly the accepted matches cut out |
| WikiAttr.AttrExtension.CollectPass | src/lib/wikiattr.ts:156-183 | the scan leaves the collection, log and spans of the accepted matches |
| WikiAttr.AttrExtension.ScanMatch | src/lib/wikiattr.ts:157-182 | one turn of the scan keeps the match, its targets, its `addAttr` calls and its span exactly when `isTop` accepts it |
| WikiAttr.AttrExtension.Accept | src/lib/wikiattr.ts:162-169 | an accepted match's targets go under its trimmed type, extending the collection and the call log as `Collect` and `AttrCalls` say |
| WikiAttr.AttrExtension.AddTargets | src/lib/wikiattr.ts:165-169 | the inner scan adds every target of one match, in order |
| WikiAttr.AttrExtension.Postprocess | src/lib/wikiattr.ts:198-209 | the hook prepends the box built from the current collection under the conditions `WikiAttr.PostprocessPrepends` states |
| WikiLink.Start | src/lib/wikilink.ts:11-14 | 0 iff the pattern matches somewhere, -1 otherwise |
| WikiLink.Tokenize | src/lib/wikilink.ts:15-28 | a token only for a match at index 0; `raw` is the match text and a prefix of the source; `linktype` is the trimmed group 1, or `null` when that group is falsy |
| WikiLink.ChooseDisplayText | src/lib/wikilink.ts:61-67 | the `for … break` loop returns exactly the first non-empty candidate, or the filename |
| WikiLink.FirstNonEmpty | src/lib/wikilink.ts:61-67 | returns the first non-empty candidate, or the default when there is none |
| WikiLink.DisplayTextChoice | src/lib/wikilink.ts:61-67 | the label wins when non-empty, then the resolved text, then the filename |
| WikiLink.DisplayText | src/lib/wikilink.ts:61-67 | the display text: the first non-empty of label, resolved text and filename; `WikiLink.DisplayTextChoice` states the choice |
| WikiLink.LinkClasses | src/lib/wikilink.ts:45-59 | `wiki link`, then `type reftype__<slug>` for a truthy link type, then `doctype__<slug>` for a truthy doctype |
| WikiLink.LinkAnchor | src/lib/wikilink.ts:36-69 | an invalid link shows `raw` with classes `wiki link invalid` and no href; a valid one has `href == data-href == baseUrl + href`, the link classes and the display text |
| WikiLink.Render | src/lib/wikilink.ts:29-76 | the returned HTML is the anchor; `addLink(linktype \|\| '', filename)` is emitted exactly when the callback is present and the link is valid |
| WikiLink.RenderInvalid | src/lib/wikilink.ts:40-42 | a falsy href renders exactly `<a class="wiki link invalid">raw</a>` and emits no `addLink` |
| WikiLink.RenderReadsBack | src/lib/wikilink.ts:69 | read back from the HTML, a valid link's `href` and `data-href` are both `baseUrl + href`; an invalid one has neither |
| WikiLink.DefaultHref | src/lib/wikilink.ts:37 | without `resolveHtmlHref` every link is valid and points at `baseUrl + '/' + filename` |
| WikiEmbed.Start | src/lib/wikiembed.ts:16-19 | 0 iff the pattern matches somewhere, -1 otherwise |
| WikiEmbed.Tokenize | src/lib/wikiembed.ts:20-32 | a token only for a match at index 0; `raw` is the match text and a prefix of the source, `filename` is group 1 |
| WikiEmbed.MediaKindOf | src/lib/wikiembed.ts:45-60 | the lower-cased extension selects audio, then image, then video, by set membership |
| WikiEmbed.DropFirstDot | src/lib/wikiembed.ts:43 | removes the first dot and only it; a text without a dot is unchanged |
| WikiEmbed.MediaElementOf | src/lib/wikiembed.ts:40-60 | the media element's kind and class follow the extension; it carries `src` iff the href is truthy, and `src` is the href without `baseUrl` |
| WikiEmbed.MediaTag | src/lib/wikiembed.ts:44-60 | the `<audio>`, `<img>` or `<video>` line, or `media error` for no kind: a line ending in a line feed, starting with a tag exactly when the kind is known |
| WikiEmbed.MediaHtml | src/lib/wikiembed.ts:41-61 | the media branch's HTML: the `<span>` named by the hyphenated filename around `MediaTag` of `MediaElementOf`; `EmbedExtension.RenderMedia` is proved to build it |
| WikiEmbed.EmbedText | src/lib/wikiembed.ts:37 | the resolved text when truthy, otherwise the filename |
| WikiEmbed.TitleAnchor | src/lib/wikiembed.ts:74-87 | with a truthy href: `wiki embed [doctype__<slug>]` and `href == data-href == baseUrl + href`; otherwise `wiki embed invalid` without href |
| WikiEmbed.IconAnchor | src/lib/wikiembed.ts:91-96 | the icon link has the same href rule; it is `embed-link-icon`, plus `invalid` when there is no href |
| WikiEmbed.MatchPrefix | src/lib/wikiembed.ts:127 | a reported placeholder match extends past the pattern's literal front and stays inside the text |
| WikiEmbed.MatchPrefixSound | src/lib/wikiembed.ts:127 | every reported match is a string of the placeholder pattern's language |
| WikiEmbed.MatchPrefixComplete | src/lib/wikiembed.ts:127 | whenever the text begins with a string of the pattern's language, exactly that length is reported |
| WikiEmbed.HasMatchIff | src/lib/wikiembed.ts:130 | `test` holds iff the pattern matches at some index |
| WikiEmbed.ReplaceAllNoMatch | src/lib/wikiembed.ts:130-133 | without a match the HTML is unchanged |
| WikiEmbed.ReplaceAllKeepsPrefix | src/lib/wikiembed.ts:138 | text before the first match is kept as it is |
| WikiEmbed.ReplaceAllAtMatch | src/lib/wikiembed.ts:138 | a match is replaced by the given text verbatim, and the scan goes on after it |
| WikiEmbed.ReplaceAllFirst | src/lib/wikiembed.ts:136-141 | with a match after a match-free prefix, `test` succeeds and the replacement keeps the prefix and puts the content in place of the match |
| WikiEmbed.ReplaceAll | src/lib/wikiembed.ts:138 | `replace` with the global placeholder pattern, scanning left to right; the `ReplaceAll…` lemmas state what it keeps and what it replaces |
| WikiEmbed.PlaceholderMatches | src/lib/wikiembed.ts:99 | a placeholder whose filename has no `<` is found by its own pattern, and the match is the whole `<div>` |
| WikiEmbed.DocumentPlaceholder | src/lib/wikiembed.ts:99 | the document HTML holds the placeholder with `data-filename` right after its head, and that is where the pattern matches |
| WikiEmbed.DocumentHtml | src/lib/wikiembed.ts:70-101 | the document branch's HTML: head, placeholder `<div>`, tail; `WikiEmbed.DocumentPlaceholder` locates the placeholder in it |
| WikiEmbed.EmbedHtml | src/lib/wikiembed.ts:40-101 | what the renderer returns: the media HTML for a media file, otherwise the document HTML; `EmbedExtension.Render` is proved to return it and `WikiEmbed.DocumentPlaceholder` locates its placeholder |
| WikiEmbed.Substitution | src/lib/wikiembed.ts:128-145 | truthy content replaces a placeholder; otherwise `(errorContent \|\| 'Error: Content not found for ') + "'" + filename + "'"` does |
| WikiEmbed.ErrorString | src/lib/wikiembed.ts:128 | the error message ends with the filename in single quotes, after the configured or default prefix |
| WikiEmbed.Step | src/lib/wikiembed.ts:127-145 | an entry whose placeholder is gone is skipped without calling the resolver; otherwise the resolver is called once and every match is replaced |
| WikiEmbed.SubstituteResolved | src/lib/wikiembed.ts:125-146 | there are never more resolver calls than entries, each call is for a registered filename, and the k-th call is for an entry at position k or later |
| WikiEmbed.SubstituteOncePerEntry | src/lib/wikiembed.ts:125-146 | the calls are those of a strictly increasing choice of entries: the resolver is called at most once per entry, in registry order |
| WikiEmbed.Substitute | src/lib/wikiembed.ts:125-146 | the loop over the registry snapshot, one `Step` per entry in insertion order; the lemmas above and `EmbedExtension.Postprocess` state its properties |
| WikiEmbed.SubstituteNothingPresent | src/lib/wikiembed.ts:130-133 | when no registered placeholder is in the HTML nothing is resolved and the HTML is unchanged |
| WikiEmbed.DocumentEmbedResolves | src/lib/wikiembed.ts:99-145 | a rendered document embed in a page has its placeholder replaced by the substitution, with the text in front kept |
| WikiEmbed.RegisterFresh | src/lib/wikiembed.ts:103 | registering a fresh id keeps the map's keys distinct |
| WikiEmbed.EmbedExtension.constructor | src/lib/wikiembed.ts:8 | a new instance starts with an empty placeholder map and no calls |
| WikiEmbed.EmbedExtension.Render | src/lib/wikiembed.ts:33-110 | returns the branch's HTML; the media branch leaves the map alone, the document branch adds exactly `id -> filename`; `addEmbed` is logged once when present |
| WikiEmbed.EmbedExtension.RenderHtml | src/lib/wikiembed.ts:40-68 | the HTML of the branch `isMedia` selects |
| WikiEmbed.EmbedExtension.RenderMedia | src/lib/wikiembed.ts:41-61 | the `+=` steps of the media branch build `MediaHtml` |
| WikiEmbed.EmbedExtension.RenderDocument | src/lib/wikiembed.ts:70-101 | the `+=` steps of the document branch build `DocumentHtml` |
| WikiEmbed.EmbedExtension.Register | src/lib/wikiembed.ts:103 | registering a fresh id appends exactly `id -> filename` to the placeholder map, keeps the map valid and logs nothing |
| WikiEmbed.EmbedExtension.Postprocess | src/lib/wikiembed.ts:114-148 | without a content resolver or with an empty map the HTML and the map are unchanged; otherwise the map is emptied and the result is the entries substituted in insertion order |
| WikiEmbed.EmbedExtension.ResolveEntry | src/lib/wikiembed.ts:126-145 | one turn of the loop yields exactly `Step` of the progress so far: a placeholder no longer in the HTML is skipped without calling the resolver; otherwise the resolver is called once and every match is replaced by the content, or by the error string when the content is empty |

## Left out

- The `wikirefs` patterns, `isMedia` and the extension sets come from a library that is not part of this model. Their results are inputs: match records, and the `Platform` record.
- `path.extname` is a function parameter, and `Math.random` is the id passed to `EmbedExtension.Render`. The id is required to have the shape `embed-[0-9a-z]*` and not to be registered yet.
- Promises and `await` are not modelled. `postprocess` handles one entry at a time, so a sequential loop has the same effect, provided `resolveEmbedContent` does not re-enter the same extension instance (for example a nested render that registers and drains placeholders while the promise is pending); such re-entry is not modelled.
- A rejected content promise is modelled as the resolver returning `None`.
- `console.debug` and `console.error` are not modelled.
- The `marked` host is not modelled: when it calls `start`, the tokenizer, the renderer and the hooks, and over which source text.
- Attribute types are visited in insertion order. JavaScript `for…in` visits integer-like keys first (for example a type named `2`); the model does not capture that.
- Attribute types named after `Object.prototype` members (for example `constructor`) break the JavaScript dictionary; the model treats them like any other name.
- Strings are sequences of Unicode scalar values, while JavaScript strings are UTF-16 code units. The positions from `indexOf`, `lastIndexOf` and `match.index` that `Cut`, `IsTop` and `ReplaceAll` use therefore differ from the JavaScript ones in texts with characters outside the Basic Multilingual Plane.
- `toLowerCase` is ASCII only. `trim` and `\s` use the JavaScript whitespace set. Other Unicode case mappings are not modelled.
- `WikiAttr.AttrExtension.Preprocess`: models the JavaScript sort as a reversal. The pushed spans are strictly increasing, so the two agree; `WikiAttr.ReverseIsDescending` states this.
- `WikiAttr.AttrExtension.Postprocess`: rebuilds the box from the collection on each call. It does not model the collection being changed by other code between hooks.
- `WikiEmbed.MatchPrefix`: reads the placeholder id literally. This is faithful only for ids without pattern metacharacters, which is every id `Math.random().toString(36)` can produce.
- `WikiEmbed.DocumentPlaceholder`: states that a placeholder is present and where. It does not state that no other text of the page matches it, because the title text shown comes from a resolver.
- `src/index.ts` is not part of this model. It is a stub that the library files do not use.
- `src/lib/types.ts` has interfaces only. Its `WikiRefsOptions` is the record `Html.WikiRefsOptions`, and its attribute collection is `WikiAttr.Collection`.
- `WikiAttr.AttrExtension.constructor`: requires `resolveHtmlHref` and `resolveHtmlText` to be present (`WikiAttr.HasResolvers`), as the options interface declares them. The source itself never calls them in `preprocess`, and without them it only throws a `TypeError` in `renderAttributeBox` once the collection is non-empty; that failure is not modelled.
- The test harness and fixtures under `test/` are not part of this model.
- The option fields that the three core files never read are not modelled.
