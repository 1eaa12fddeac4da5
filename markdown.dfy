/** What `parse_markdown_file`, `parse_markdown_content` and
    `convert_markdown_to_html` do around the libraries they call: the date
    normalisation of the front matter, the slug, the front-matter gate and
    the order of conversion and shortcode processing. The Markdown library
    (with `process_nav_content` in front of it) and python-frontmatter are
    parameters. */
module Markdown {
  import opened Text
  import opened Values
  import opened Items
  import opened Dates
  import opened Paths
  import opened Shortcodes

  // ---------------------------------------------------------------------------
  // The `date` entry

  /** The value a `date` entry holds after `parse_markdown_file`: a date or
      a datetime is kept as it is; any other value is rendered with `str()`, cut at its first space
      and parsed as YYYY-MM-DD, and becomes `None` when that fails. */
  function NormalizedDate(v: Value): (r: Value)
    ensures IsDateObject(r) || r.Null?
    ensures IsDateObject(v) ==> r == v
    ensures !IsDateObject(v) ==> r.Null? || (r.Date? && ValidDate(r.d))
  {
    if IsDateObject(v) then v
    else
      match StrptimeIsoDate(DatePart(PyStr(v)))
      case Some(d) => Date(d)
      case None => Null
  }

  /** The front matter after normalisation: only `date` may change. */
  function NormalizedMetadata(m: Metadata): (r: Metadata)
    ensures r.Keys == m.Keys
    ensures forall k :: k in m && k != "date" ==> r[k] == m[k]
    ensures "date" in m ==> r["date"] == NormalizedDate(m["date"])
  {
    if "date" in m then m["date" := NormalizedDate(m["date"])] else m
  }

  /** A date written as text, alone or followed by a space and a time,
      becomes that date. */
  lemma DateTextNormalized(d: CalDate, time: string)
    requires ValidDate(d)
    ensures NormalizedDate(Str(DateText(d))) == Date(d)
    ensures NormalizedDate(Str(DateText(d) + " " + time)) == Date(d)
  {
    var t := DateText(d);
    assert ' ' !in t;
    DateTextRoundTrip(d);
    var s := t + " " + time;
    assert s[..|t|] == t;
    FirstIndexOfAt(s, ' ', |t|);
  }

  /** Normalising twice changes nothing: `None` renders as `"None"`, which
      does not parse. */
  lemma NormalizedDateIdempotent(v: Value)
    ensures NormalizedDate(NormalizedDate(v)) == NormalizedDate(v)
  {
    if NormalizedDate(v).Null? {
      assert PyStr(Null) == "None";
      assert DatePart("None") == "None";
    }
  }

  lemma NormalizedMetadataIdempotent(m: Metadata)
    ensures NormalizedMetadata(NormalizedMetadata(m)) == NormalizedMetadata(m)
  {
    if "date" in m {
      NormalizedDateIdempotent(m["date"]);
    }
  }

  /** A `frontmatter.Post`: the parsed front matter and the body. */
  class Post {
    var metadata: Metadata
    var content: string

    constructor (metadata: Metadata, content: string)
      ensures this.metadata == metadata && this.content == content
    {
      this.metadata := metadata;
      this.content := content;
    }

    /** The date handling of `parse_markdown_file`, on `post.metadata` in place. */
    method NormalizeDate()
      modifies this
      ensures metadata == NormalizedMetadata(old(metadata))
      ensures content == old(content)
    {
      if "date" in metadata && !IsDateObject(metadata["date"]) {
        var dateStr := PyStr(metadata["date"]);
        var parsed;
        if ' ' in dateStr {
          parsed := StrptimeIsoDate(DatePart(dateStr));
        } else {
          parsed := StrptimeIsoDate(dateStr);
        }
        match parsed
        case Some(d) =>
          metadata := metadata["date" := Date(d)];
        case None =>
          metadata := metadata["date" := Null];
      }
    }
  }

  // ---------------------------------------------------------------------------
  // The slug

  /** `os.path.splitext(os.path.basename(filepath))[0]` */
  function Slug(filepath: string): (r: string)
    ensures '/' !in r && StartsWith(Basename(filepath), r)
  {
    SplitExt(Basename(filepath)).0
  }

  /** The slug of a file the section filter accepts is its name without the
      three-character extension. */
  lemma SlugOfMarkdownFile(dir: string, name: string)
    requires MarkdownName(name)
    ensures Slug(JoinPath(dir, name)) == name[..|name| - 3]
  {
    LowerSuffix(name);
    BasenameOfJoin(dir, name);
    SplitExtOfMarkdownName(name);
  }

  // ---------------------------------------------------------------------------
  // Conversion

  /** The Markdown step of `convert_markdown_to_html`: `markdown(content,
      itemPath)` stands for `process_nav_content` followed by the Markdown
      library, where `itemPath` is the path handed to the asset processor, or
      `None` when the extension is not added; it gives `None` where the
      library raises. The extension is added only when the source path is
      given and not empty. */
  function Converted(content: string, sourcePath: Option<string>, markdown: (string, Option<string>) -> Option<string>): (r: Option<string>)
    ensures r == markdown(content, if sourcePath.Some? && sourcePath.value != [] then sourcePath else None)
  {
    var assets := if sourcePath.Some? && sourcePath.value != [] then sourcePath else None;
    markdown(content, assets)
  }

  /** `convert_markdown_to_html`: shortcodes are processed after conversion,
      and only when a context is given. `None` stands for a missing context;
      every caller that passes one passes a dict holding `config`, which is
      never empty. `None` is an exception from the converter; shortcode
      processing catches its handlers' exceptions itself. */
  function ConvertMarkdownToHtml(content: string, sourcePath: Option<string>, context: Option<ShortcodeContext>,
                                 markdown: (string, Option<string>) -> Option<string>,
                                 registry: map<string, Handler>, render: Listing -> Result<string>): (r: Option<string>)
  {
    match Converted(content, sourcePath, markdown)
    case None => None
    case Some(html) =>
      match context
      case None => Some(html)
      case Some(ctx) => Some(ProcessShortcodes(html, ctx, registry, render))
  }

  /** Without a context the converter's output is returned as it is, whatever
      the registry; an empty source path is the same as none. */
  lemma ConversionWithoutContext(content: string, sourcePath: Option<string>,
                                 markdown: (string, Option<string>) -> Option<string>,
                                 registry: map<string, Handler>, render: Listing -> Result<string>)
    ensures ConvertMarkdownToHtml(content, sourcePath, None, markdown, registry, render) == Converted(content, sourcePath, markdown)
    ensures ConvertMarkdownToHtml(content, Some([]), None, markdown, registry, render)
         == ConvertMarkdownToHtml(content, None, None, markdown, registry, render)
  {
  }

  /** With a context, converted text in which every shortcode is inert comes
      out exactly as the converter produced it. */
  lemma InertConversionUnchanged(content: string, sourcePath: Option<string>, ctx: ShortcodeContext,
                                 markdown: (string, Option<string>) -> Option<string>,
                                 registry: map<string, Handler>, render: Listing -> Result<string>)
    requires var html := Converted(content, sourcePath, markdown);
      html.Some? ==> forall p :: ShortcodeAt(html.value, p).Some? ==> Inert(ShortcodeAt(html.value, p).value)
    ensures ConvertMarkdownToHtml(content, sourcePath, Some(ctx), markdown, registry, render) == Converted(content, sourcePath, markdown)
  {
    var html := Converted(content, sourcePath, markdown);
    if html.Some? {
      InertTextUnchanged(html.value, ctx, registry, render);
    }
  }

  // ---------------------------------------------------------------------------
  // parse_markdown_file and parse_markdown_content

  /** `parse_markdown_file(filepath, ...)`. `post` is what `frontmatter.load`
      returned, or `null` where it raised; `convert` is
      `convert_markdown_to_html` with the file's path and context bound, and
      gives `None` where it raises. The body is converted, the date
      normalised, and the record built; either exception gives `None`, and a
      failed conversion leaves the date as it was. */
  method ParseMarkdownFile(filepath: string, post: Post?, convert: string -> Option<string>) returns (r: Option<ParsedFile>)
    modifies post
    ensures post == null ==> r == None
    ensures post != null ==> post.content == old(post.content)
    ensures post != null && convert(post.content).None? ==> r == None && post.metadata == old(post.metadata)
    ensures post != null && convert(post.content).Some? ==>
      && post.metadata == NormalizedMetadata(old(post.metadata))
      && r == Some(ParsedFile(post.metadata, convert(post.content).value, filepath, Slug(filepath)))
  {
    if post == null {
      return None;
    }
    var html := convert(post.content);
    if html.None? {
      return None;
    }
    post.NormalizeDate();
    r := Some(ParsedFile(post.metadata, html.value, filepath, Slug(filepath)));
  }

  /** `parse_markdown_content(content, source_path)`: the metadata and the
      HTML, or `None` where the front-matter load or the conversion raised. `loads` stands for
      `frontmatter.loads`, giving the metadata and the body, or `None` where
      it raises. The front matter is looked for only when the content starts
      with `---`; shortcodes are never processed, since no context is passed. */
  function ParseMarkdownContent(content: string, sourcePath: Option<string>,
                                loads: string -> Option<(Metadata, string)>,
                                markdown: (string, Option<string>) -> Option<string>): (r: Option<(Metadata, string)>)
    ensures !StartsWith(content, "---") ==>
      && (r.Some? <==> Converted(content, sourcePath, markdown).Some?)
      && (r.Some? ==> r.value == (map[], Converted(content, sourcePath, markdown).value))
    ensures StartsWith(content, "---") ==>
      (r.Some? <==> loads(content).Some? && Converted(loads(content).value.1, sourcePath, markdown).Some?)
    ensures StartsWith(content, "---") && r.Some? ==>
      r.value == (loads(content).value.0, Converted(loads(content).value.1, sourcePath, markdown).value)
  {
    if StartsWith(content, "---") then
      match loads(content)
      case None => None
      case Some((metadata, body)) =>
        match Converted(body, sourcePath, markdown)
        case None => None
        case Some(html) => Some((metadata, html))
    else
      match Converted(content, sourcePath, markdown)
      case None => None
      case Some(html) => Some((map[], html))
  }
}
