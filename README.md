# zerodown content pipeline — a Dafny model

zerodown is a static site generator. It turns a directory of Markdown files
with front matter into HTML pages. This project models the deterministic core
of that pipeline and proves properties of it. The Markdown converter, the
front-matter YAML loader, Jinja and the filesystem are outside the model and
appear only as parameters.

- **Asset and link rewriting** (`zerodown/markdown.py`, module `AssetLinks`).
  The tree processor rewrites relative image sources and link targets into
  site URLs. Absolute URLs, anchors and `mailto:` links pass through. A
  relative `.md` link becomes `/….html` and any other relative file becomes
  `/assets/…`. The "content root" is the parent of the item directory's
  parent, and "under the root" is a plain string-prefix test. Both quirks
  are modelled as written.
- **Parsing a Markdown file** (`zerodown/markdown.py`, modules `Markdown` and
  `Dates`). This covers:
  - normalising the `date` front-matter value with `strptime('%Y-%m-%d')`,
    which gives `None` on failure;
  - the slug taken from the file name;
  - front-matter gating in `parse_markdown_content`;
  - shortcodes running after conversion, and only when a context is given.
- **Sections** (`zerodown/content.py`, module `Content`). This covers:
  - which directory entries become items, and the URL and section each gets;
  - `sort_items`, with its fallback keys and its swallowed `TypeError`;
  - the site-wide `all_items` list, which only grows;
  - page titles and descriptions.

  Python's comparison of front-matter values, which may fail, is modelled in
  `Values`. `list.sort` is modelled in `Sorting`.
- **Shortcodes** (`zerodown/shortcodes.py`, modules `Shortcodes` and
  `Scanning`). This covers:
  - the `re.sub` scanner with its look-behind and look-ahead;
  - the filters that return a match verbatim;
  - parameter parsing and the handler registry;
  - the selection logic of the four built-in handlers. Each returns the
    items it selects, or its fixed message.
- **Includes and templates** (`zerodown/templates.py`, module `Templates`):
  the `include_<stem>_<key>` and `<stem>_html` globals, and the
  error page `render_template` falls back to.
- **The portfolio example**. This covers:
  - the home-page preprocessor (`examples/portfolio/shortcode_preprocess.py`,
    module `PortfolioPreprocess`);
  - the portfolio's own shortcodes (`examples/portfolio/shortcodes.py`,
    module `PortfolioShortcodes`);
  - the `latest_items.json` generator
    (`examples/portfolio/content/_includes/latest_items.py`, module
    `LatestItems`);
  - the parts these three share (module `PortfolioCommon`): the naive
    `key: value` front-matter reader, with and without boolean coercion, and
    the stable sort by `int(order, default 999)`.

The model takes the form of the source:

- Code that updates state in place is written as methods:
  - the element attributes (`AssetLinks.Element`);
  - `post.metadata` (`Markdown.Post`);
  - the site-wide item list (`Content.Site`);
  - the shortcode registry (`Shortcodes.Registry`);
  - the Jinja globals (`Templates.TemplateEnv`);
  - the lists sorted in place (arrays);
  - the loops that build lists, dictionaries and HTML strings.
- Each of these methods is proved equal to a specification function.
- Lemmas state what the source promises about that function.

Python's integers are unbounded, like Dafny's. Where the source reaches a C
`int`, namely the `reverse` argument of `list.sort`, the bound is written
out (`Sorting.ReverseArgument`).

## Model

| member | source | states |
|---|---|---|
| AssetLinks.AdjustAssetPath | zerodown/markdown.py:43-64 | A `src` starting with `http://`, `https://` or `/` is returned unchanged. A relative one that resolves under the content root becomes its `/assets/` URL. One that resolves elsewhere is returned as given. |
| AssetLinks.AssetUrl | zerodown/markdown.py:56-61 | An asset URL always starts with `/assets/` and holds no backslash. |
| AssetLinks.PageUrl | zerodown/markdown.py:81-87 | A page URL always starts with `/`, ends with `.html` and holds no backslash. |
| AssetLinks.LinkPassesThrough | zerodown/markdown.py:70-72 | An `href` starting with `http://`, `https://`, `/`, `#` or `mailto:` is returned unchanged. |
| AssetLinks.MarkdownLinkBecomesPage | zerodown/markdown.py:74-87 | A relative link whose normalised path ends in `.md` and lies under the root becomes its page URL. |
| AssetLinks.OtherLinkBecomesAsset | zerodown/markdown.py:89-90 | Any other relative link under the root becomes its asset URL. |
| AssetLinks.LinkOutsideRootUnchanged | zerodown/markdown.py:78-90 | A link that resolves outside the root is returned exactly as written, even when it names a `.md` file. |
| AssetLinks.LinkOutcomes | zerodown/markdown.py:66-90 | Every link result is one of three: the input; a page URL, and only for `.md` targets; or an asset URL, and only for other targets. |
| AssetLinks.Rewritten | zerodown/markdown.py:31-39 | The attributes of an element keep their keys. Only an `img`'s `src` and an `a`'s `href` change, each through its adjuster. |
| AssetLinks.Run | zerodown/markdown.py:27-41 | After `run`, every element of the tree has exactly its rewritten attributes. |
| AssetLinks.RewriteTree | zerodown/markdown.py:31-39 | The two passes, images then links, leave each element with the per-tag rewrite of its old attributes. |
| AssetLinks.RewriteAll | zerodown/markdown.py:32-34 | One `findall` loop rewrites the attribute of every element with that tag that has it. All other elements are left alone. |
| Markdown.NormalizedDate | zerodown/markdown.py:135-146 | The normalised `date` is a date, a datetime or `None`. A date or datetime object is kept as it is. Any other value becomes a valid calendar date or `None`. |
| Markdown.NormalizedMetadata | zerodown/markdown.py:135-146 | Normalising keeps every key and every value except `date`, which becomes its normalised form. |
| Markdown.DateTextNormalized | zerodown/markdown.py:138-143 | The text `YYYY-MM-DD` of a valid date, alone or followed by a space and a time, normalises to that date. |
| Markdown.NormalizedDateIdempotent | zerodown/markdown.py:135-146 | Normalising a `date` value twice gives the same result as once. |
| Markdown.NormalizedMetadataIdempotent | zerodown/markdown.py:135-146 | Normalising the metadata twice gives the same result as once. |
| Markdown.Post.NormalizeDate | zerodown/markdown.py:134-146 | The in-place update leaves `post.metadata` normalised and the body unchanged. |
| Markdown.Slug | zerodown/markdown.py:152 | The slug holds no `/` and is a prefix of the file's base name. |
| Markdown.SlugOfMarkdownFile | zerodown/markdown.py:152 | For a `.md` file name, the slug is the name without its last three characters. |
| Markdown.ConversionWithoutContext | zerodown/markdown.py:255-267 | Without a context, the result is the converter's output, or its failure, with the asset processor only for a non-empty source path. |
| Markdown.InertConversionUnchanged | zerodown/markdown.py:261-267 | When every match in the converted HTML is one the engine returns verbatim, shortcode processing leaves the HTML unchanged. |
| Markdown.ParseMarkdownFile | zerodown/markdown.py:125-156 | A failed load or a failed conversion gives `None`; a failed conversion leaves the date as it was. Otherwise the date is normalised in place, and the record is built from the metadata, the HTML, the path and the slug. |
| Markdown.ParseMarkdownContent | zerodown/markdown.py:173-191 | Content not starting with `---` gives empty metadata and its whole text converted. Otherwise the result exists exactly when the front-matter load and the conversion both succeed, and its HTML is the loaded body, converted. |
| Dates.StrptimeIsoDate | zerodown/markdown.py:140-142 | Every date that `strptime('%Y-%m-%d')` accepts is a valid calendar date. |
| Dates.DatePart | zerodown/markdown.py:139-140 | The part before the first space is a prefix without spaces, and is the whole text when there is no space. |
| Dates.DateTextRoundTrip | zerodown/markdown.py:138-142 | Parsing `str()` of a valid date gives back that date. |
| Dates.SingleDigitsAccepted | zerodown/markdown.py:142 | Single-digit months and days are accepted (`2024-3-1`). |
| Dates.ImpossibleDayRejected | zerodown/markdown.py:142-146 | A day the month does not have (`2023-02-29`) is rejected. |
| Values.DateText | zerodown/markdown.py:138 | `str()` of a date has ten characters, digits with `-` at positions 4 and 7. |
| Content.SortValue | zerodown/content.py:123-131 | A present, non-`None` value is the key itself. A missing value gives `date.min` when reversing and `date.max` otherwise for a key containing `date`, and `0` for any other key; the key is never `None`. |
| Content.SortPlan | zerodown/content.py:116-137 | When the sort succeeds, the result is a permutation of the items with adjacent keys in order, ascending or descending as `reverse_sort` says. |
| Content.ArrangedIsPermutation | zerodown/content.py:133-137 | Whatever the outcome, the list afterwards holds exactly the items it held before. |
| Content.SortItems | zerodown/content.py:107-137 | The in-place sort leaves the list as the plan says. It reports nothing on success, the warning for a caught `TypeError`, and the error that escapes otherwise. The list stays a permutation of its old contents. |
| Content.UndatedItemsLast | zerodown/content.py:123-135 | Sorting by a key containing `date` succeeds when every item has a `date` or no value, and undated items come last in both directions. |
| Content.DateTimeAgainstDateWarns | zerodown/content.py:123-137 | When one item's key is a `datetime` and another's is a `date`, or is missing and so gets the `date.min`/`date.max` fallback, the sort raises `TypeError`. `sort_items` warns and leaves the list as it was. |
| Content.UnsortedWithoutKey | zerodown/content.py:116-118 | With no `sort_by`, or no items, the list is left alone. |
| Content.DiscoveredItems | zerodown/content.py:57-85 | There are at most as many items as directory entries. Each item belongs to the section, has URL `/<section>/<slug>.html`, and comes from an entry that is not hidden, ends in `.md` in any case, is a file, and whose name without `.md` is its slug. |
| Content.DiscoveredCount | zerodown/content.py:57-85 | One item is collected per accepted entry whose parse succeeds. |
| Content.DiscoverItems | zerodown/content.py:57-85 | The append loop collects exactly the discovered items, in listing order. |
| Content.SlugIfPlain | zerodown/content.py:58-62 | An accepted name is at least three characters long. A name without `/` has as slug the name without `.md`. |
| Content.Site.ProcessSection | zerodown/content.py:15-104 | A non-dict configuration or a directory that is not ready gives `[]` with `all_items` unchanged. Otherwise the sorted items are returned and appended to `all_items`, whose old contents stay in front. If sorting raises, nothing is appended. |
| Content.PageTitle | zerodown/content.py:157 | A page title ends in ` - <site name>`. Without a `title` it is the fallback and the site name: `Untitled` for item pages here, `About` for the about page (line 278), the capitalised key for list pages (lines 33 and 183). |
| Content.TitleFromFrontMatter | zerodown/content.py:157 | The item's own title is used as given, and a `None` title shows as `None`. |
| Content.ItemDescription | zerodown/content.py:162 | The description is the item's own when present, else the site description. |
| Content.PostsListTitle | zerodown/content.py:33 | A section without a title is titled by its key, capitalised (`Posts`). |
| Sorting.ReverseArgument | zerodown/content.py:135 | `reverse=` is accepted exactly for a `bool` or an `int` that fits a C `int`. Its truth value is used. An `int` out of range raises `OverflowError`. |
| Sorting.Sort | zerodown/content.py:135 | A successful sort is a permutation with adjacent keys in order. A failed one names a pair of keys that `<` cannot compare. |
| Sorting.SortSucceedsWhenComparable | zerodown/content.py:133-137 | When every pair of keys is comparable, the sort succeeds. |
| Sorting.ScalarSortSucceedsIff | zerodown/content.py:133-137 | For numbers, strings, dates and datetimes, the sort succeeds exactly when all keys are of one kind. A `date` and a `datetime` are of different kinds. |
| Sorting.ScalarSortOrdered | zerodown/content.py:135 | For keys of one kind the whole result is ordered, and tied keys keep their original order: the sort is stable. |
| Sorting.Rearrange | zerodown/content.py:135 | Applying the permutation in place leaves the array holding the permuted items. |
| Values.LtAsymmetric | zerodown/content.py:135 | Python's `<` on front-matter values is defined for a pair exactly when it is defined for the swapped pair, and never holds both ways. |
| Values.ScalarComparable | zerodown/content.py:133-137 | Two numbers, strings, dates or datetimes compare exactly when they are of the same kind, so a `datetime` never compares with a `date`. |
| Shortcodes.ShortcodeAt | zerodown/shortcodes.py:43 | Every match is `[`, a word, optional whitespace and parameters, then `]`. It is not preceded by whitespace and not followed by `(`. |
| Shortcodes.ShortcodeFound | zerodown/shortcodes.py:43 | Completeness: wherever the pattern can match at a position, `ShortcodeAt` matches there, with the same name and the same end. |
| Shortcodes.EveryMatchCovered | zerodown/shortcodes.py:90 | Any text the pattern can match at a position lies inside a span that `re.sub` visits, so none is skipped: it is visited or lies inside a match visited before it. |
| Shortcodes.ParamsMatched | zerodown/shortcodes.py:43 | A bracketed word followed by whitespace, then text without `]`, then `]`, is a match with those parts. |
| Shortcodes.ParamAt | zerodown/shortcodes.py:72 | A parameter is a non-empty word, `=`, a quote, a non-empty value without quotes, and a quote. |
| Shortcodes.ParamAtWritten | zerodown/shortcodes.py:72 | Conversely, `key=`, a quote, a value without quotes and a quote, written at a position, match there as exactly that key and value. Either quote may open or close. |
| Shortcodes.ParseParams | zerodown/shortcodes.py:69-74 | The parameter dictionary has distinct keys. |
| Shortcodes.ParamsLastWins | zerodown/shortcodes.py:69-74 | Each key maps to the value of its last occurrence in the parameter string. |
| Shortcodes.ParamRoundTrip | zerodown/shortcodes.py:69-74 | A single written `key="value"` (or with either quote at either end) parses back to exactly `{key: value}`. |
| Shortcodes.ParamsRoundTrip | zerodown/shortcodes.py:69-74 | Pairs written one space apart are all found, in order. With distinct keys, the parameter dict is exactly those pairs. |
| Shortcodes.FoundFromAgrees | zerodown/shortcodes.py:72-73 | `re.finditer` over the parameter pattern yields the same pairs as a left-to-right scan that resumes after each match. |
| Shortcodes.StoreLookup | zerodown/shortcodes.py:74 | Assigning a key sets that key and leaves the others as they were. |
| Shortcodes.BindError | zerodown/shortcodes.py:79 | Calling the handler with `**params` binds exactly when every key is one of the handler's keywords other than `context`. |
| Shortcodes.Registry.constructor | zerodown/shortcodes.py:13 | The registry starts empty. |
| Shortcodes.Registry.Register | zerodown/shortcodes.py:15-28 | Registering maps the name to the handler and leaves every other entry as it was. |
| Shortcodes.BuiltInRegistry | zerodown/shortcodes.py:94-252 | The built-in registry maps the four handler names to their handlers. |
| Shortcodes.VerbatimOfMatch | zerodown/shortcodes.py:59-66 | A match is returned verbatim exactly when it has no parameters or its gap and parameters contain a space. |
| Shortcodes.VerbatimWithoutParams | zerodown/shortcodes.py:59-61 | A match without parameters is returned verbatim, even for a registered name. |
| Shortcodes.VerbatimWithSpace | zerodown/shortcodes.py:65-66 | A match whose bracket interior contains a space is returned verbatim. |
| Shortcodes.ExpandedOnlyWithoutSpaces | zerodown/shortcodes.py:59-66 | Only a name followed by whitespace that holds no space character (a tab or a newline), with space-free parameters, is ever expanded. |
| Shortcodes.InteriorOfMatch | zerodown/shortcodes.py:65 | The text between the brackets of a match is its name, gap and parameters, and stripping it changes nothing. |
| Shortcodes.UnknownName | zerodown/shortcodes.py:84-88 | An unregistered name with parameters gives `<p>Unknown shortcode: [name]</p>`. |
| Shortcodes.HandlerFailure | zerodown/shortcodes.py:77-83 | A handler that raises, including a failed template render, gives `<p>Error in shortcode [name]: message</p>`. |
| Shortcodes.ExpandedWithoutSpace | zerodown/shortcodes.py:68-88 | Any other match is replaced by its expansion. |
| Shortcodes.InertTextUnchanged | zerodown/shortcodes.py:90 | Text whose every match is returned verbatim comes out unchanged. |
| Shortcodes.OutsideMatchesCopied | zerodown/shortcodes.py:43-90 | The output is the text with each non-overlapping match, from left to right, replaced. Everything between matches is copied. |
| Shortcodes.CollectItems | zerodown/shortcodes.py:110-118 | The append loop keeps exactly the items that pass the filter, in list order. |
| Shortcodes.FeaturedItemsSelection | zerodown/shortcodes.py:107-123 | Gives the no-featured-items message exactly when `items[:count]` of the featured items (in the section, when one is named) is empty. Otherwise it shows exactly that slice, in list order: `min(count, n)` items for a non-negative `count`, and all but the last `-count` for a negative one. |
| Shortcodes.FeaturedItemsShortcode | zerodown/shortcodes.py:94-140 | The handler returns the featured-items reply. |
| Shortcodes.LatestPostsInListOrder | zerodown/shortcodes.py:155-166 | Gives `No posts found` exactly when `items[:count]` of the section's items (default `posts`) is empty. Otherwise it shows exactly that slice, in aggregate-list order, for any `count`, negative ones included. |
| Shortcodes.LatestPostsFirstListed | zerodown/shortcodes.py:158-163 | Of two posts, `count="1"` shows the one listed first, whatever their dates: there is no sort by date. |
| Shortcodes.LatestPostsShortcode | zerodown/shortcodes.py:142-188 | The handler returns the latest-posts reply. |
| Shortcodes.SectionListCases | zerodown/shortcodes.py:202-237 | With a section, lists that section's items or gives the no-items message. Without one, lists `config.sections`, else `config.SECTIONS`, else gives `No sections found`. |
| Shortcodes.SectionListShortcode | zerodown/shortcodes.py:190-249 | The handler returns the section-list reply. |
| Shortcodes.FeaturedProjectsSelection | zerodown/shortcodes.py:263-274 | Gives the no-featured-projects message exactly when `items[:count]` of the featured `projects` items is empty. Otherwise it shows exactly that slice, in list order. |
| Shortcodes.NegativeCountDropsFromEnd | zerodown/shortcodes.py:271 | A negative `count` shows the featured projects without the last `-count`, or the no-featured-projects message when that leaves none. |
| Shortcodes.FeaturedProjectsShortcode | zerodown/shortcodes.py:251-305 | The handler returns the featured-projects reply. |
| Scanning.FindAll | zerodown/shortcodes.py:90 | `re.sub` visits matches left to right, and they do not overlap. |
| Scanning.FindAllCovers | zerodown/shortcodes.py:90 | Every position where the pattern matches lies in some visited span: a match is either visited or overlapped by an earlier one. |
| Scanning.SubIdentity | zerodown/shortcodes.py:90 | When each match is replaced by itself, the text is unchanged. |
| Scanning.TrySubIdentity | examples/portfolio/shortcode_preprocess.py:160 | The same holds when a replacement may raise. |
| Templates.RenderFailureShown | zerodown/templates.py:48-54 | When lookup or rendering raises, the result is `<h1>Error rendering template</h1><p>` and the error, then `</p>`. |
| Templates.MetaKeysDistinct | zerodown/templates.py:90 | Different metadata keys of one include get different global names. |
| Templates.MetaKeyNotHtmlKey | zerodown/templates.py:90-94 | No metadata key's global name is the include's `<stem>_html`. |
| Templates.IncludeEntries | zerodown/templates.py:89-95 | One include adds `include_<stem>_<key>` for each metadata key, and `<stem>_html`, and nothing else. |
| Templates.IncludeContextKeys | zerodown/templates.py:76-95 | Every key of the include context comes from some listed include. |
| Templates.LastIncludeWins | zerodown/templates.py:76-95 | The entries of the last include processed overwrite any earlier ones with the same name. |
| Templates.RefusedNameAddsNothing | zerodown/templates.py:77 | A name that does not end in `.md` (case-sensitive) or starts with `.` adds nothing. |
| Templates.CollectIncludes | zerodown/templates.py:76-95 | The loop builds exactly the include context. |
| Templates.AsGlobals | zerodown/templates.py:103 | Every entry of the context becomes a global under the same name. |
| Templates.TemplateEnv.constructor | zerodown/templates.py:23-29 | The environment starts with Jinja's default globals (`range`, `dict`, `lipsum`, `cycler`, `joiner`, `namespace`), then adds `config` and `now`: exactly those eight names. |
| Templates.TemplateEnv.ProcessIncludes | zerodown/templates.py:57-105 | A missing `_includes` directory gives `{}`. Otherwise the include context is returned. Either way the environment's globals are updated with it. |
| PortfolioCommon.SplitDashes | examples/portfolio/shortcodes.py:54 | `split('---', 2)` gives one to three parts, which joined by `---` give the text back. Text starting with `---` has an empty first part. |
| PortfolioCommon.LineValue | examples/portfolio/content/_includes/latest_items.py:37-43 | A value is a string or a boolean, and without coercion it is the stripped text. |
| PortfolioCommon.CoercionChangesOnlyValue | examples/portfolio/content/_includes/latest_items.py:33-43 | Coercion keeps which lines count and their keys. It turns `true` and `false`, in any case, into booleans and keeps every other value. |
| PortfolioCommon.TrueCoerced | examples/portfolio/content/_includes/latest_items.py:38-39 | ` True` becomes `True`. |
| PortfolioCommon.FalseCoerced | examples/portfolio/content/_includes/latest_items.py:40-41 | ` FALSE` becomes `False`. |
| PortfolioCommon.OtherWordKept | examples/portfolio/content/_includes/latest_items.py:42-43 | ` yes` stays the string `yes`. |
| PortfolioCommon.LinesMetadataLastWins | examples/portfolio/shortcodes.py:55-58 | A key is in the metadata exactly when some line with `:` gives it, and its value is from the last such line. |
| PortfolioCommon.LineRoundTrip | examples/portfolio/shortcodes.py:56-58 | The line `key: value` reads back as that key and value. |
| PortfolioCommon.ParseLines | examples/portfolio/shortcodes.py:55-58 | The line loop fills the dictionary with exactly the metadata of the lines. |
| PortfolioCommon.ReadFrontMatter | examples/portfolio/content/_includes/latest_items.py:30-43 | Reading the front matter gives its metadata, or the unpacking error when it is not closed. |
| PortfolioCommon.Each | examples/portfolio/content/_includes/latest_items.py:25-54 | The per-file loop succeeds exactly when every file succeeds, and then gives one result per file, in order. |
| PortfolioCommon.EachFirstFailure | examples/portfolio/content/_includes/latest_items.py:25-54 | The loop stops with the error of the first file that raises. |
| PortfolioCommon.IntOf | examples/portfolio/content/_includes/latest_items.py:57 | `int()` keeps an integer, and accepts a string exactly when Python's `int` does. |
| PortfolioCommon.OrderOf | examples/portfolio/content/_includes/latest_items.py:57 | A missing `order` counts as 999. |
| PortfolioCommon.IntSortOrdered | examples/portfolio/content/_includes/latest_items.py:57 | Integer keys always sort, stably and in non-decreasing order. |
| PortfolioCommon.SortedBy | examples/portfolio/content/_includes/latest_items.py:57 | Sorting by a key succeeds exactly when every key exists. The result is then a stable permutation of the input: keys never decrease, and items of equal key keep their input order. |
| PortfolioCommon.TakeLowest | examples/portfolio/shortcode_preprocess.py:47-48 | `[:count]` after sorting keeps exactly as many items as the slice keeps. They are a sub-multiset of the input, in key order, no higher than anything left out, and of equal keys the ones listed first are taken. |
| PortfolioCommon.SortBy | examples/portfolio/content/_includes/latest_items.py:57 | The in-place sort leaves the array as the sorted list, or unchanged with the error. |
| Text.PyIntOfDecimal | examples/portfolio/content/_includes/latest_items.py:57 | `int()` of the decimal text of an integer gives that integer. |
| Text.Take | zerodown/shortcodes.py:120 | `items[:count]` is a prefix: the first `count` items, or for a negative `count`, all but the last `-count`. |
| LatestItems.RecordFields | examples/portfolio/content/_includes/latest_items.py:46-52 | Each record has url `/projects/<stem>.html`, slug `<stem>` and section `projects`. Its metadata is the coerced front matter, and its HTML is `<h1>` with the title, or `Project`. |
| LatestItems.LatestItemsOutcome | examples/portfolio/content/_includes/latest_items.py:18-57 | A missing directory writes nothing. Otherwise writing fails exactly when a front matter is not closed or an `order` is not an integer. |
| LatestItems.LatestItemsWritten | examples/portfolio/content/_includes/latest_items.py:25-57 | The list written has one record per file, exactly the files' records, in non-decreasing order, with records of equal order in file order. |
| LatestItems.UnorderedItemsInFileOrder | examples/portfolio/content/_includes/latest_items.py:57 | With no `order` in any file, every key is 999 and the records are written in file order. |
| LatestItems.GenerateLatestItems | examples/portfolio/content/_includes/latest_items.py:11-62 | `main`'s loop and in-place sort compute exactly the list written. |
| LatestItems.FalseIsNotFeatured | examples/portfolio/content/_includes/latest_items.py:37-43 | `featured: false`, in any case, is coerced to a false boolean, while the uncoerced string would count as featured. |
| PortfolioPreprocess.TagAtMatched | examples/portfolio/shortcode_preprocess.py:146 | Every match is `[`, a word, optionally whitespace and text without `]`, then `]`. |
| PortfolioPreprocess.TagFound | examples/portfolio/shortcode_preprocess.py:146 | Completeness: wherever the pattern can match at a position, `TagAt` matches there with the same name and end. |
| PortfolioPreprocess.CorePatternAddsLookarounds | examples/portfolio/shortcode_preprocess.py:146 | The engine's pattern matches at a position exactly when this pattern does there and the look-behind and look-ahead also hold. |
| PortfolioPreprocess.ParseAttributes | examples/portfolio/shortcode_preprocess.py:11-24 | Empty input gives `{}`, and the keys are distinct. |
| PortfolioPreprocess.AttributesLastWins | examples/portfolio/shortcode_preprocess.py:18-22 | Each key maps to the value of its last `key="v"` or `key='v'` pair. |
| PortfolioPreprocess.AttributesRoundTrip | examples/portfolio/shortcode_preprocess.py:11-24 | Attributes written one space apart read back as exactly those attributes when the keys are distinct. A single attribute reads back with either quote at either end. |
| PortfolioPreprocess.ParseShortcodeAttributes | examples/portfolio/shortcode_preprocess.py:11-24 | The loop builds exactly the parsed attributes. |
| PortfolioPreprocess.UnexpectedKeyword | examples/portfolio/shortcode_preprocess.py:153-156 | `handler(**params)` binds exactly when every key is the handler's one keyword. |
| PortfolioPreprocess.FeaturedSelectionProperties | examples/portfolio/shortcode_preprocess.py:40-48 | The selection fails exactly when a featured project's `order` is not an integer. Otherwise it shows exactly `items[:count]` many featured projects, a sub-multiset of them, ordered by `order`, none ranked above one left out, and of equal orders the first listed. |
| PortfolioPreprocess.UnorderedFeaturedInListOrder | examples/portfolio/shortcode_preprocess.py:40-48 | With no `order` on any item, the first `count` featured projects are shown in list order. |
| PortfolioPreprocess.ShownTags | examples/portfolio/shortcode_preprocess.py:70-72 | Tags are shown only when `tags` is a list, and then at most the first three. |
| PortfolioPreprocess.RenderTags | examples/portfolio/shortcode_preprocess.py:72-73 | The tag loop emits one span per shown tag. |
| PortfolioPreprocess.RenderCard | examples/portfolio/shortcode_preprocess.py:58-78 | The card is built from the title (or its default), the summary when present, the tags and the link. |
| PortfolioPreprocess.RenderCards | examples/portfolio/shortcode_preprocess.py:58-78 | The loop emits one `project-card` block per selected item, in order. |
| PortfolioPreprocess.FeaturedProjectsShortcode | examples/portfolio/shortcode_preprocess.py:26-83 | The handler gives one of: the binding error, the `int(count)` error, the missing-JSON message, the sort error, `No featured projects found`, or the grid of cards for the selection. |
| PortfolioPreprocess.SectionListShortcode | examples/portfolio/shortcode_preprocess.py:85-141 | The handler gives one of: the required-section message, the missing-JSON message, the no-items message, the sort error, or the grid of cards for the section's items sorted by `order`. |
| PortfolioPreprocess.OtherNamesVerbatim | examples/portfolio/shortcode_preprocess.py:157-158 | A match naming anything other than `featured_projects` or `section_list` is returned verbatim. |
| PortfolioPreprocess.UnhandledTextUnchanged | examples/portfolio/shortcode_preprocess.py:143-160 | Text with no match naming a handler comes out unchanged. |
| PortfolioPreprocess.PreprocessHomeMd | examples/portfolio/shortcode_preprocess.py:162-197 | A missing `home.md` writes nothing. Otherwise the preprocessed text is written, unless a handler raises. |
| PortfolioPreprocess.RejoinSplits | examples/portfolio/shortcode_preprocess.py:178-184 | Splitting `---fm---body` again, when `fm` holds no `---`, gives back `fm` and the body. |
| PortfolioPreprocess.SplitFrontMatterHasNoDashes | examples/portfolio/shortcode_preprocess.py:178-180 | The front matter split off holds no `---`. |
| PortfolioPreprocess.BodyIsSuffix | examples/portfolio/shortcode_preprocess.py:178-181 | The content is `---`, the front matter, `---` and the body, and the body is a suffix of it. |
| PortfolioPreprocess.FrontMatterPreserved | examples/portfolio/shortcode_preprocess.py:175-184 | With front matter, the written text splits into the same front matter and the processed body. |
| PortfolioPreprocess.PreprocessRoundTrip | examples/portfolio/shortcode_preprocess.py:174-190 | Content whose body has no match naming a handler is written back exactly as it was read, front matter included. |
| PortfolioShortcodes.AttributeAt | examples/portfolio/shortcodes.py:17 | An attribute is a non-empty word, `="`, a value without `"` (possibly empty), and `"`. |
| PortfolioShortcodes.ParseAttributes | examples/portfolio/shortcodes.py:10-23 | The attribute keys are distinct. |
| PortfolioShortcodes.AttributesLastWins | examples/portfolio/shortcodes.py:17-21 | Each key maps to the value of its last `key="v"` pair. |
| PortfolioShortcodes.DoubleQuotesOnly | examples/portfolio/shortcodes.py:17 | Text without a double quote, single-quoted pairs included, gives no attributes. |
| PortfolioShortcodes.AttributeRoundTrip | examples/portfolio/shortcodes.py:17-21 | `key="value"` parses back to that single pair, including an empty value. |
| PortfolioShortcodes.ParseShortcodeAttributes | examples/portfolio/shortcodes.py:10-23 | The loop builds exactly the parsed attributes. |
| PortfolioShortcodes.FrontMatterStrings | examples/portfolio/shortcodes.py:52-58 | Without coercion, every front-matter value is a string. |
| PortfolioShortcodes.ProjectOfFacts | examples/portfolio/shortcodes.py:47-63 | A file fails exactly when its front matter is not closed. It is kept exactly when `featured` lowercased is `true`. A kept project is its front matter with `url` set to `/projects/<stem>.html`. |
| PortfolioShortcodes.CollectFeaturedProjects | examples/portfolio/shortcodes.py:46-63 | The file loop collects exactly the featured projects. |
| PortfolioShortcodes.ShownProjectsProperties | examples/portfolio/shortcodes.py:60-69 | Exactly `projects[:count]` many featured projects are shown, a sub-multiset of them, each from a file, ordered by `int(order, 999)`, none ranked above one left out, and of equal orders the first in glob order. |
| PortfolioShortcodes.UnorderedProjectsInFileOrder | examples/portfolio/shortcodes.py:66-69 | With no `order` on any featured project, the first `count` are shown in glob order. |
| PortfolioShortcodes.ContentDirChoice | examples/portfolio/shortcodes.py:36-38 | The directory is `content_dir` when that is a string, else `CONTENT_DIR`, with `content` by default. `Path()` fails, with `os.fspath`'s `TypeError`, only when neither is a string. |
| PortfolioShortcodes.ImageBlockIffImage | examples/portfolio/shortcodes.py:78-83 | A card opens with the image block exactly when the project has `image`. |
| PortfolioShortcodes.RenderProjectCard | examples/portfolio/shortcodes.py:77-93 | The card loop body builds exactly one card. |
| PortfolioShortcodes.RenderProjectCards | examples/portfolio/shortcodes.py:76-93 | The loop emits one card per project, in order. |
| PortfolioShortcodes.FeaturedProjectsShortcode | examples/portfolio/shortcodes.py:25-98 | The handler gives one of: the `int(count)` error, the projects-section-not-found message, the missing-directory message, the exception a file or the sort raises, or the grid of cards of the shown projects. |
| PortfolioShortcodes.SectionSettings | examples/portfolio/shortcodes.py:109-111 | A non-empty `sections` entry wins. Otherwise the `SECTIONS` entry is used. |
| PortfolioShortcodes.SectionItemFacts | examples/portfolio/shortcodes.py:133-142 | A section item is its string front matter with `url` set to `/<section>/<stem>.html`, and fails only on unclosed front matter. |
| PortfolioShortcodes.CollectSectionItems | examples/portfolio/shortcodes.py:127-142 | The file loop collects exactly the section's items. |
| PortfolioShortcodes.SortKeyOf | examples/portfolio/shortcodes.py:148-152 | A list `sort_by` raises `unhashable type`. The `order` key gives an integer or `''`. Any other key of string metadata gives a string. |
| PortfolioShortcodes.SortedItems | examples/portfolio/shortcodes.py:145-154 | A successful sort is a permutation of the items in which each key may stand before the next, ascending or, for `reverse_sort`, descending. |
| PortfolioShortcodes.SectionSortStable | examples/portfolio/shortcodes.py:145-154 | For a section's items, a successful sort puts all keys in order (descending for `reverse_sort`), and items of equal key keep glob order. |
| PortfolioShortcodes.OrderSortOrdered | examples/portfolio/shortcodes.py:145-154 | Sorted by `order`, the items come out by `int(order)`, ascending or descending as `reverse_sort` says, equal orders in glob order; with no order anywhere they keep glob order. |
| PortfolioShortcodes.TextSortOrdered | examples/portfolio/shortcodes.py:145-154 | Once `reverse_sort` is accepted (a bool, or an int that fits a C `int`), sorting by a text key succeeds. The result is ordered as `reverse_sort` says, and items of equal key keep glob order. A `reverse_sort` that is not accepted makes the sort fail (`PortfolioShortcodes.SortedItems`). |
| PortfolioShortcodes.OrderKeyKind | examples/portfolio/shortcodes.py:150-152 | The `order` key is an integer exactly when the item has a non-empty `order`. |
| PortfolioShortcodes.OrderSortFailsIffMixed | examples/portfolio/shortcodes.py:148-154 | When `reverse_sort` is accepted and every `order` that is set parses as an integer, sorting by `order` fails exactly when some items have an `order` and others do not. If either condition fails, the sort fails too (`PortfolioShortcodes.SortedItems`). |
| PortfolioShortcodes.SectionListShortcode | examples/portfolio/shortcodes.py:100-182 | The handler gives one of: the missing-name message, the not-found message, the missing-directory message, the exception raised, or the grid of cards of the sorted items. |
| PortfolioShortcodes.HandlerFor | examples/portfolio/shortcodes.py:185-188 | `SHORTCODES` holds exactly `featured_projects` and `section_list`. |

## Left out

- Markdown-to-HTML conversion, `process_nav_content` and the converter's extensions (codehilite, toc, nl2br): these are calls into python-markdown. The converter is a function parameter. The model states only that the asset processor is attached for a non-empty source path, and that shortcodes run afterwards and only with a context.
- Values.Value: YAML floats (`weight: 1.5`), nested mappings and non-string mapping keys cannot be represented; `Metadata` maps strings to `Value`. In Python a float sort key is ordered numerically against ints and bools, so it sorts or fails as a number would. A mapping sort key makes `<` raise `TypeError`, so `sort_items` warns and keeps the list. A mapping title is shown as its `str()`. A float or mapping `date` fails `strptime` and becomes `None`. A front matter with an int key is read by the loader, but its key cannot be looked up under a string name.
- The YAML front-matter loader (`frontmatter.load`/`loads`) and all Jinja rendering: these are library calls. Their results are parameters. The handlers of `zerodown/shortcodes.py` return the selected items, or their fixed messages, instead of rendered HTML.
- File I/O: the directory listings, `glob`, `exists`, `isfile`, reading, `json.load`/`json.dump`, writing pages and `copy_content_assets`. Each is a parameter, such as the list of entries, the file texts, an `Option` for a missing file, or the `ready` flag for directories that cannot be created or listed.
- Console and `print` output. The one warning text the model keeps is the one `sort_items` prints for a caught `TypeError` (`Content.SortWarning`).
- `build_item_pages` and `build_section_list` beyond their titles and descriptions: they render and write pages.
- The `output_path` and `base_url` arguments: the source never uses them.
- `datetime.datetime.now`, the module object `config` and Jinja's default globals: they are opaque entries of the Jinja globals, named but not modelled.
- Unicode: `\w`, `\d`, `str.lower`, `capitalize` and `int()` are modelled on ASCII. `\s` and `strip()` use Python's full whitespace set. `repr()` of a string (`Text.PyReprString`) escapes the control characters, the no-break space and the soft hyphen up to U+00AD; other characters above U+00A0 that Python counts as not printable (such as U+2028 or U+200B) are kept verbatim where Python writes a `\u` escape.
- Markdown.ParseMarkdownFile and Markdown.ParseMarkdownContent: the Markdown library and shortcode processing are opaque. Only their failure is modelled, as `None`, and not the exceptions inside them.
- PortfolioShortcodes.SectionSettings: `sections` and `SECTIONS` are modelled as dicts of dicts (`PortfolioConfig`). A value there that is truthy but not a dict cannot be represented, such as a list of sections or a section given as a string. So the `AttributeError` that `.get` then raises at examples/portfolio/shortcodes.py:31, 109-111 or 145-146 is not modelled.
- Sorting.Sort: CPython's `list.sort` is timsort, and the model sorts by stable insertion. On success the results are equal, because a stable sort by a strict weak order is unique. For numbers, strings, dates and datetimes, failure happens on the same inputs (`Sorting.ScalarSortSucceedsIff`); for those, only which incomparable pair the `TypeError` message names may differ. For list-valued keys, `<` compares element by element, so whether it raises depends on which pairs the algorithm compares. There, the set of inputs on which the sort fails may differ between timsort and the model, not only the message.
- Content.SortItems: after a caught `TypeError` the model leaves the list in its input order. CPython keeps the partial progress timsort made before the failing comparison: for weights 2, 3, 1, "x" the list ends as 1, 2, 3, "x". So after the warning the model's order can differ from Python's; both are permutations of the input.
- Error message texts that come from the Python runtime (the `TypeError` of `<`, the `ValueError` of `int()`, the unpacking error) follow CPython 3.10 wording, the newest version the package declares, and may differ in earlier versions (3.7 to 3.9 word the `TypeError` for a non-integer `reverse` as "an integer is required (got type ...)").
- Dates: `strptime` is modelled for the `%Y-%m-%d` format only. A naive `datetime` in the front matter is kept by the date normalisation (`isinstance(datetime, date)` holds), but `<` refuses to order it against a `date` (`Content.DateTimeAgainstDateWarns`). Timezone-aware datetimes are not modelled: their `str()` adds a UTC offset, and comparing an aware datetime with a naive one also raises.
