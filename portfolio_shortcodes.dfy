/** The portfolio example's own shortcode functions (`shortcodes.py` and
    its `SHORTCODES` map): attributes written `key="value"`, the projects or
    the section directory read file by file with the `key: value` line
    parser, a sort, and one card per entry.

    The file system is a parameter: `glob(dir, sub)` stands for the files
    `(Path(dir) / sub).glob('*.md')` yields, in that order, with their text,
    and is `None` when that directory does not exist. */
module PortfolioShortcodes {
  import opened Text
  import opened Values
  import opened Sorting
  import opened Scanning
  import opened Shortcodes
  import opened Paths
  import opened PortfolioCommon

  type Glob = (string, string) -> Option<seq<SourceFile>>

  /** `site_config`, as far as these functions read it: the `sections` and
      `SECTIONS` dicts (empty where the key is missing), each section a
      dict of settings, and `content_dir` and `CONTENT_DIR` where present. */
  datatype PortfolioConfig = PortfolioConfig(
    sections: map<string, map<string, Value>>,
    upperSections: map<string, map<string, Value>>,
    contentDir: Option<Value>,
    upperContentDir: Option<Value>)

  // ---------------------------------------------------------------------------
  // parse_shortcode_attributes: (\w+)="([^"]*)"

  /** The match of the attribute pattern at `i`: the whole run of word
      characters, `="`, then everything up to the next `"`, which may be
      nothing. A shorter run of word characters is followed by another
      word character, never by `=`, so this is all backtracking can find. */
  function AttributeAt(s: string, i: nat): (r: Option<(string, string, nat)>)
    ensures r.Some? ==>
      var (key, value, end) := r.value;
      && end == i + |key| + |value| + 3 <= |s|
      && key != [] && AllWord(key) && '"' !in value
      && s[i..end] == key + "=\"" + value + "\""
  {
    if i >= |s| then None
    else
      var e := WordEnd(s, i);
      if e == i || e + 1 >= |s| || s[e] != '=' || s[e + 1] != '"' then None
      else
        var q := CharFrom(s, e + 2, '"');
        if q == |s| then None
        else
          assert s[i..q + 1] == s[i..e] + "=\"" + s[e + 2..q] + "\"";
          Some((s[i..e], s[e + 2..q], q + 1))
  }

  function AttributeEnd(s: string, i: nat): nat
  {
    match AttributeAt(s, i)
    case Some((_, _, end)) => end
    case None => i
  }

  /** The `(key, value)` pairs `re.findall` returns, in order. */
  function AttributePairs(s: string): seq<(string, string)>
  {
    AttributePairsOf(s, FindAll(s, 0, i => AttributeEnd(s, i)))
  }

  function AttributePairsOf(s: string, spans: seq<Span>): (r: seq<(string, string)>)
    ensures |r| <= |spans|
  {
    if spans == [] then []
    else
      var rest := AttributePairsOf(s, spans[1..]);
      match AttributeAt(s, spans[0].start)
      case Some((key, value, _)) => [(key, value)] + rest
      case None => rest
  }

  /** The dict `parse_shortcode_attributes` returns. */
  function ParseAttributes(attrsString: string): (r: Params)
    ensures DistinctKeys(r)
  {
    if attrsString == [] then [] else StoreAll([], AttributePairs(attrsString))
  }

  /** Each attribute holds the value of the last pair naming it. */
  lemma AttributesLastWins(attrsString: string, key: string)
    ensures Lookup(ParseAttributes(attrsString), key) == LastValue(AttributePairs(attrsString), key)
  {
    if attrsString == [] {
      assert FindAll(attrsString, 0, i => AttributeEnd(attrsString, i)) == [];
    } else {
      StoreAllLookup([], AttributePairs(attrsString), key);
    }
  }

  /** A scan that finds no match from `i` on finds nothing. */
  lemma {:induction false} NothingFound(s: string, i: nat, matchEnd: nat -> nat)
    requires forall p :: i <= p ==> !MatchesAt(s, matchEnd, p)
    ensures FindAll(s, i, matchEnd) == []
    decreases |s| - i
  {
    if i < |s| {
      NothingFound(s, i + 1, matchEnd);
    }
  }

  /** Only double quotes delimit a value: without a `"` there are no
      attributes at all, single-quoted ones included. */
  lemma DoubleQuotesOnly(attrsString: string)
    requires '"' !in attrsString
    ensures ParseAttributes(attrsString) == []
  {
    var matchEnd := (i: nat) => AttributeEnd(attrsString, i);
    forall p | 0 <= p
      ensures !MatchesAt(attrsString, matchEnd, p)
    {
    }
    NothingFound(attrsString, 0, matchEnd);
    assert AttributePairs(attrsString) == [];
  }

  /** An attribute written out as `key="value"` reads back as itself, the
      empty value included. */
  lemma AttributeRoundTrip(key: string, value: string)
    requires key != [] && AllWord(key) && '"' !in value
    ensures ParseAttributes(key + "=\"" + value + "\"") == [(key, value)]
  {
    var s := key + "=\"" + value + "\"";
    var n := |key|;
    assert s[..n] == key && s[n] == '=' && s[n + 1] == '"' && s[|s| - 1] == '"';
    assert WordEnd(s, 0) == n;
    assert CharFrom(s, n + 2, '"') == |s| - 1;
    var matchEnd := (i: nat) => AttributeEnd(s, i);
    assert AttributeAt(s, 0) == Some((key, value, |s|));
    assert FindAll(s, |s|, matchEnd) == [];
    assert FindAll(s, 0, matchEnd) == [Span(0, |s|)];
    assert AttributePairsOf(s, [Span(0, |s|)]) == [(key, value)];
    assert AttributePairs(s) == [(key, value)];
    assert Store([], key, value) == [(key, value)];
    assert StoreAll([], [(key, value)]) == StoreAll([(key, value)], []) == [(key, value)];
  }

  /** The loop `for key, value in matches: attrs[key] = value`. */
  method ParseShortcodeAttributes(attrsString: string) returns (attrs: Params)
    ensures attrs == ParseAttributes(attrsString)
  {
    attrs := [];
    if attrsString == [] {
      return;
    }
    var matches := AttributePairs(attrsString);
    var i := 0;
    while i < |matches|
      invariant 0 <= i <= |matches| && DistinctKeys(attrs)
      invariant StoreAll(attrs, matches[i..]) == StoreAll([], matches)
    {
      assert matches[i..][1..] == matches[i + 1..];
      attrs := Store(attrs, matches[i].0, matches[i].1);
      i := i + 1;
    }
  }

  // ---------------------------------------------------------------------------
  // The front matter of one file

  /** Every value is a string, as the plain line parser stores them. */
  predicate AllStrings(m: map<string, Value>)
  {
    forall k :: k in m ==> m[k].Str?
  }

  lemma {:induction false} PlainLinesAreStrings(lines: seq<string>)
    ensures AllStrings(LinesMetadata(lines, false))
    decreases |lines|
  {
    if lines != [] {
      PlainLinesAreStrings(lines[..|lines| - 1]);
    }
  }

  lemma FrontMatterStrings(content: string)
    ensures FrontMatterOf(content, false).Ok? ==> AllStrings(FrontMatterOf(content, false).value)
  {
    if StartsWith(content, "---") && |SplitDashes(content)| == 3 {
      PlainLinesAreStrings(Lines(SplitDashes(content)[1]));
    }
  }

  /** `metadata.get('featured', 'false').lower() == 'true'` */
  predicate MarkedFeatured(m: map<string, Value>)
  {
    "featured" in m && m["featured"].Str? && Lower(m["featured"].s) == "true"
  }

  function SectionUrl(section: string, f: SourceFile): string
  {
    "/" + section + "/" + Stem(f.name) + ".html"
  }

  /** The metadata with `url` set, over whatever the front matter said. */
  function WithUrl(m: map<string, Value>, url: string): map<string, Value>
  {
    m["url" := Str(url)]
  }

  // ---------------------------------------------------------------------------
  // featured_projects_shortcode

  /** What one file adds to `projects`: its metadata with its url when it is
      marked featured, nothing otherwise, and the unpacking error when its
      front matter is not closed. */
  function ProjectOf(f: SourceFile): Result<Option<map<string, Value>>>
  {
    match FrontMatterOf(f.content, false)
    case Failure(e) => Failure(e)
    case Ok(meta) => if MarkedFeatured(meta) then Ok(Some(WithUrl(meta, ProjectUrl(f)))) else Ok(None)
  }

  /** A file is taken exactly when its `featured` says `true` in any case;
      what is taken is its metadata, all strings, with `url` set to the
      file's page and every other entry as the front matter gave it. */
  lemma ProjectOfFacts(f: SourceFile)
    ensures ProjectOf(f).Failure? <==> FrontMatterOf(f.content, false).Failure?
    ensures ProjectOf(f).Ok? ==> (ProjectOf(f).value.Some? <==> MarkedFeatured(FrontMatterOf(f.content, false).value))
    ensures ProjectOf(f).Ok? && ProjectOf(f).value.Some? ==>
      var m := ProjectOf(f).value.value;
      var meta := FrontMatterOf(f.content, false).value;
      && AllStrings(m) && MarkedFeatured(m) && "url" in m && m["url"] == Str(ProjectUrl(f))
      && forall k :: k in meta && k != "url" ==> k in m && m[k] == meta[k]
  {
    FrontMatterStrings(f.content);
  }

  /** The list a loop over `xs` builds when each element adds at most one
      entry (`None`: nothing) or raises: the entries in order, or the error
      of the first element that raises. */
  function Gather<T, U>(xs: seq<T>, f: T -> Result<Option<U>>): Result<seq<U>>
    decreases |xs|
  {
    if xs == [] then Ok([])
    else
      match Gather(xs[..|xs| - 1], f)
      case Failure(e) => Failure(e)
      case Ok(prev) =>
        match f(xs[|xs| - 1])
        case Failure(e) => Failure(e)
        case Ok(None) => Ok(prev)
        case Ok(Some(y)) => Ok(prev + [y])
  }

  /** The list is built exactly when no element raises. */
  lemma {:induction false} GatherOk<T, U>(xs: seq<T>, f: T -> Result<Option<U>>)
    ensures Gather(xs, f).Ok? <==> forall j :: 0 <= j < |xs| ==> f(xs[j]).Ok?
    decreases |xs|
  {
    if xs != [] {
      var init := xs[..|xs| - 1];
      GatherOk(init, f);
      assert forall j :: 0 <= j < |init| ==> init[j] == xs[j];
    }
  }

  /** Every entry of the list is one an element adds. */
  lemma {:induction false} GatherSound<T, U>(xs: seq<T>, f: T -> Result<Option<U>>)
    requires Gather(xs, f).Ok?
    ensures var ys := Gather(xs, f).value;
      forall k :: 0 <= k < |ys| ==> exists j :: 0 <= j < |xs| && f(xs[j]) == Ok(Some(ys[k]))
    decreases |xs|
  {
    if xs != [] {
      var init := xs[..|xs| - 1];
      GatherSound(init, f);
      var ys := Gather(xs, f).value;
      var prev := Gather(init, f).value;
      forall k | 0 <= k < |ys|
        ensures exists j :: 0 <= j < |xs| && f(xs[j]) == Ok(Some(ys[k]))
      {
        if k < |prev| {
          var j :| 0 <= j < |init| && f(init[j]) == Ok(Some(prev[k]));
          assert init[j] == xs[j];
        } else {
          assert f(xs[|xs| - 1]) == Ok(Some(ys[k]));
        }
      }
    }
  }

  /** Every entry an element adds is in the list. */
  lemma {:induction false} GatherComplete<T, U>(xs: seq<T>, f: T -> Result<Option<U>>, j: nat)
    requires Gather(xs, f).Ok? && j < |xs| && f(xs[j]).Ok? && f(xs[j]).value.Some?
    ensures f(xs[j]).value.value in Gather(xs, f).value
    decreases |xs|
  {
    var init := xs[..|xs| - 1];
    if j < |init| {
      assert init[j] == xs[j];
      GatherComplete(init, f, j);
    }
  }

  /** When the element at `i` is the first that raises, its error is the
      list's error. */
  lemma {:induction false} GatherFirstFailure<T, U>(xs: seq<T>, f: T -> Result<Option<U>>, i: nat)
    requires i < |xs| && Gather(xs[..i], f).Ok? && f(xs[i]).Failure?
    ensures Gather(xs, f) == Failure(f(xs[i]).error)
    decreases |xs|
  {
    assert xs[..i + 1][..i] == xs[..i];
    if |xs| > i + 1 {
      var init := xs[..|xs| - 1];
      assert init[..i] == xs[..i] && init[i] == xs[i];
      GatherFirstFailure(init, f, i);
    } else {
      assert xs[..i] == xs[..|xs| - 1];
    }
  }

  /** The `projects` list the loop over the files builds, in glob order. */
  function FeaturedProjectList(files: seq<SourceFile>): Result<seq<map<string, Value>>>
  {
    Gather(files, ProjectOf)
  }

  /** The loop over `projects_dir.glob('*.md')`. */
  method CollectFeaturedProjects(files: seq<SourceFile>) returns (r: Result<seq<map<string, Value>>>)
    ensures r == FeaturedProjectList(files)
  {
    var projects := [];
    var i := 0;
    while i < |files|
      invariant 0 <= i <= |files|
      invariant FeaturedProjectList(files[..i]) == Ok(projects)
    {
      assert files[..i + 1][..i] == files[..i];
      var metadata := ReadFrontMatter(files[i].content, false);
      if metadata.Failure? {
        GatherFirstFailure(files, ProjectOf, i);
        return Failure(metadata.error);
      }
      if MarkedFeatured(metadata.value) {
        projects := projects + [WithUrl(metadata.value, ProjectUrl(files[i]))];
      }
      i := i + 1;
    }
    assert files[..i] == files;
    r := Ok(projects);
  }

  /** `projects.sort(key=lambda p: int(p.get('order', 999)))` then
      `projects[:count]`. */
  function ShownProjects(files: seq<SourceFile>, count: int): Result<seq<map<string, Value>>>
  {
    match FeaturedProjectList(files)
    case Failure(e) => Failure(e)
    case Ok(projects) =>
      match SortedBy(projects, OrderOf)
      case Failure(e) => Failure(e)
      case Ok(sorted) => Ok(Take(sorted, count))
  }

  /** The projects shown are the `count` featured ones of lowest order:
      each is a featured file's metadata with its url, none is shown twice,
      they are in non-decreasing order, no featured project left out has a
      lower order than one shown, and of equal orders the project found
      first by the glob is shown first. */
  lemma ShownProjectsProperties(files: seq<SourceFile>, count: int)
    requires ShownProjects(files, count).Ok?
    ensures var projects := FeaturedProjectList(files).value;
      var shown := ShownProjects(files, count).value;
      && |shown| == SliceLength(|projects|, count)
      && (forall k :: 0 <= k < |shown| ==>
            exists j :: 0 <= j < |files| && ProjectOf(files[j]) == Ok(Some(shown[k])))
      && (forall k :: 0 <= k < |shown| ==> MarkedFeatured(shown[k]) && AllStrings(shown[k]))
      && multiset(shown) <= multiset(projects)
      && (forall k :: 0 <= k < |projects| ==> OrderOf(projects[k]).Ok?)
      && (forall k :: 0 <= k < |shown| ==> OrderOf(shown[k]).Ok?)
      && (forall a, b :: 0 <= a < b < |shown| ==> OrderOf(shown[a]).value <= OrderOf(shown[b]).value)
      && (forall x :: x in projects && x !in shown ==>
            OrderOf(x).Ok? && forall k :: 0 <= k < |shown| ==> OrderOf(shown[k]).value <= OrderOf(x).value)
      && StableFirst(projects, OrderOf, shown)
  {
    var projects := FeaturedProjectList(files).value;
    var shown := ShownProjects(files, count).value;
    assert shown == Take(SortedBy(projects, OrderOf).value, count);
    TakeLowest(projects, OrderOf, count);
    ShownFromFiles(files, projects, shown);
  }

  lemma ShownFromFiles(files: seq<SourceFile>, projects: seq<map<string, Value>>, shown: seq<map<string, Value>>)
    requires FeaturedProjectList(files) == Ok(projects)
    requires forall k :: 0 <= k < |shown| ==> shown[k] in projects
    ensures forall k :: 0 <= k < |shown| ==> exists j :: 0 <= j < |files| && ProjectOf(files[j]) == Ok(Some(shown[k]))
    ensures forall k :: 0 <= k < |shown| ==> MarkedFeatured(shown[k]) && AllStrings(shown[k])
  {
    forall k | 0 <= k < |shown|
      ensures exists j :: 0 <= j < |files| && ProjectOf(files[j]) == Ok(Some(shown[k]))
      ensures MarkedFeatured(shown[k]) && AllStrings(shown[k])
    {
      ProjectFromFile(files, projects, shown[k]);
    }
  }

  lemma ProjectFromFile(files: seq<SourceFile>, projects: seq<map<string, Value>>, x: map<string, Value>)
    requires FeaturedProjectList(files) == Ok(projects)
    requires x in projects
    ensures exists j :: 0 <= j < |files| && ProjectOf(files[j]) == Ok(Some(x))
    ensures MarkedFeatured(x) && AllStrings(x)
  {
    GatherSound(files, ProjectOf);
    var i :| 0 <= i < |projects| && projects[i] == x;
    var j :| 0 <= j < |files| && ProjectOf(files[j]) == Ok(Some(projects[i]));
    ProjectOfFacts(files[j]);
  }

  /** With no `order` on any featured project, the first `count` featured
      projects are shown in glob order. */
  lemma UnorderedProjectsInFileOrder(files: seq<SourceFile>, count: int)
    requires FeaturedProjectList(files).Ok?
    requires forall k :: 0 <= k < |FeaturedProjectList(files).value| ==> "order" !in FeaturedProjectList(files).value[k]
    ensures ShownProjects(files, count) == Ok(Take(FeaturedProjectList(files).value, count))
  {
    var projects := FeaturedProjectList(files).value;
    assert forall k :: 0 <= k < |projects| ==> OrderOf(projects[k]) == Ok(999);
    EqualKeysKeepOrder(projects, OrderOf);
  }


  const ProjectsNotConfigured := "<p>Error: Projects section not found in config</p>"
  const ProjectsDirMissing := "<p>Error: Projects directory not found</p>"

  /** `site_config.get('sections', {}).get('projects', {})` is truthy. */
  predicate ProjectsConfigured(config: PortfolioConfig)
  {
    "projects" in config.sections && config.sections["projects"] != map[]
  }

  /** `site_config.get('content_dir', 'content')`, or `CONTENT_DIR` (same
      default) when that is not a string; `Path()` of anything but a
      string raises. */
  function ContentDirOf(config: PortfolioConfig): Result<string>
  {
    var first := if config.contentDir.Some? then config.contentDir.value else Str("content");
    if first.Str? then Ok(first.s)
    else
      var second := if config.upperContentDir.Some? then config.upperContentDir.value else Str("content");
      if second.Str? then Ok(second.s)
      else Failure("expected str, bytes or os.PathLike object, not " + ShortTypeName(second))
  }

  /** The type name `os.fspath` puts in its `TypeError`: the class name
      without its module. */
  function ShortTypeName(v: Value): string
  {
    match v
    case Date(_) => "date"
    case DateTime(_, _) => "datetime"
    case _ => TypeName(v)
  }

  /** The directory is `content_dir` when that is a string, whatever
      `CONTENT_DIR` says; a missing setting means `content`. */
  lemma ContentDirChoice(config: PortfolioConfig)
    ensures config.contentDir.None? ==> ContentDirOf(config) == Ok("content")
    ensures config.contentDir.Some? && config.contentDir.value.Str? ==> ContentDirOf(config) == Ok(config.contentDir.value.s)
    ensures config.contentDir.Some? && !config.contentDir.value.Str? && config.upperContentDir.None? ==> ContentDirOf(config) == Ok("content")
    ensures ContentDirOf(config).Failure? <==>
      config.contentDir.Some? && !config.contentDir.value.Str? && config.upperContentDir.Some? && !config.upperContentDir.value.Str?
  {
  }

  // ---------------------------------------------------------------------------
  // The cards

  const CardOpen := "<div class=\"project-card\">\n"
  const ImageOpen := "<div class=\"project-card-image\">\n"
  const ContentOpen := "<div class=\"project-card-content\">\n"

  function ImageBlock(m: map<string, Value>, url: string, title: string): string
  {
    if "image" in m then
      ImageOpen + "<a href=\"" + url + "\">\n" + "<img src=\"" + PyStr(m["image"]) + "\" alt=\"" + title + "\">\n"
      + "</a>\n" + "</div>\n"
    else ""
  }

  function SummaryParagraph(m: map<string, Value>): string
  {
    if "summary" in m then "<p>" + PyStr(m["summary"]) + "</p>\n" else ""
  }

  /** One `project-card`: the image block, the title (or `defaultTitle`)
      linking to the url, the summary, the link. */
  function ProjectCard(m: map<string, Value>, defaultTitle: string, linkText: string): string
  {
    var url := ShownValue(m, "url", "");
    var title := ShownValue(m, "title", defaultTitle);
    CardOpen + ImageBlock(m, url, title)
    + ContentOpen
    + "<h3><a href=\"" + url + "\">" + title + "</a></h3>\n"
    + SummaryParagraph(m)
    + "<a href=\"" + url + "\" class=\"read-more\">" + linkText + "</a>\n"
    + "</div>\n"
    + "</div>\n"
  }

  /** A card opens with the image block exactly when the entry has an
      `image`. */
  lemma ImageBlockIffImage(m: map<string, Value>, defaultTitle: string, linkText: string)
    ensures StartsWith(ProjectCard(m, defaultTitle, linkText), CardOpen + ImageOpen) <==> "image" in m
  {
    var card := ProjectCard(m, defaultTitle, linkText);
    var n := |CardOpen|;
    if "image" in m {
      var url := ShownValue(m, "url", "");
      var title := ShownValue(m, "title", defaultTitle);
      var block := ImageBlock(m, url, title);
      assert block[..|ImageOpen|] == ImageOpen;
      assert card[..n + |ImageOpen|] == CardOpen + ImageOpen;
    } else {
      assert card[n + 25] == ContentOpen[25] == 'c';
      assert (CardOpen + ImageOpen)[n + 25] == 'i';
    }
  }

  function ProjectCards(ms: seq<map<string, Value>>, defaultTitle: string, linkText: string): string
  {
    if ms == [] then ""
    else ProjectCards(ms[..|ms| - 1], defaultTitle, linkText) + ProjectCard(ms[|ms| - 1], defaultTitle, linkText)
  }

  /** The HTML one iteration of the loop over the entries adds. */
  method RenderProjectCard(m: map<string, Value>, defaultTitle: string, linkText: string) returns (card: string)
    ensures card == ProjectCard(m, defaultTitle, linkText)
  {
    var url := ShownValue(m, "url", "");
    var title := ShownValue(m, "title", defaultTitle);
    var image := "";
    if "image" in m {
      image := ImageOpen + "<a href=\"" + url + "\">\n" + "<img src=\"" + PyStr(m["image"]) + "\" alt=\"" + title + "\">\n"
        + "</a>\n" + "</div>\n";
    }
    var summary := "";
    if "summary" in m {
      summary := "<p>" + PyStr(m["summary"]) + "</p>\n";
    }
    card := CardOpen + image
      + ContentOpen
      + "<h3><a href=\"" + url + "\">" + title + "</a></h3>\n"
      + summary
      + "<a href=\"" + url + "\" class=\"read-more\">" + linkText + "</a>\n"
      + "</div>\n"
      + "</div>\n";
  }

  /** The loop `for project in projects: html += ...`: one card per entry,
      in order. */
  method RenderProjectCards(ms: seq<map<string, Value>>, defaultTitle: string, linkText: string) returns (html: string)
    ensures html == ProjectCards(ms, defaultTitle, linkText)
  {
    html := "";
    var i := 0;
    while i < |ms|
      invariant 0 <= i <= |ms|
      invariant html == ProjectCards(ms[..i], defaultTitle, linkText)
    {
      assert ms[..i + 1][..i] == ms[..i];
      var card := RenderProjectCard(ms[i], defaultTitle, linkText);
      html := html + card;
      i := i + 1;
    }
    assert ms[..i] == ms;
  }

  /** `featured_projects_shortcode(content, attrs_string, site_config,
      page_context)`: the HTML, or the exception it raises. */
  function FeaturedProjectsHtml(attrsString: string, config: PortfolioConfig, glob: Glob): Result<string>
  {
    match CountParam(ParseAttributes(attrsString))
    case Failure(e) => Failure(e)
    case Ok(count) =>
      if !ProjectsConfigured(config) then Ok(ProjectsNotConfigured)
      else
        match ContentDirOf(config)
        case Failure(e) => Failure(e)
        case Ok(dir) =>
          match glob(dir, "projects")
          case None => Ok(ProjectsDirMissing)
          case Some(files) =>
            match ShownProjects(files, count)
            case Failure(e) => Failure(e)
            case Ok(shown) => Ok(FeaturedHeader + ProjectCards(shown, "Project", "View Project →") + GridFooter)
  }

  method MetadataArray(xs: seq<map<string, Value>>) returns (a: array<map<string, Value>>)
    ensures fresh(a) && a[..] == xs
  {
    a := new map<string, Value>[|xs|](i requires 0 <= i < |xs| => xs[i]);
  }

  method FeaturedProjectsShortcode(attrsString: string, config: PortfolioConfig, glob: Glob) returns (r: Result<string>)
    ensures r == FeaturedProjectsHtml(attrsString, config, glob)
  {
    var attrs := ParseShortcodeAttributes(attrsString);
    var count := CountParam(attrs);
    if count.Failure? {
      return Failure(count.error);
    }
    if !ProjectsConfigured(config) {
      return Ok(ProjectsNotConfigured);
    }
    var contentDir := ContentDirOf(config);
    if contentDir.Failure? {
      return Failure(contentDir.error);
    }
    var files := glob(contentDir.value, "projects");
    if files.None? {
      return Ok(ProjectsDirMissing);
    }
    var projects := CollectFeaturedProjects(files.value);
    if projects.Failure? {
      return Failure(projects.error);
    }
    var a := MetadataArray(projects.value);
    var error := SortBy(a, OrderOf);
    if error.Some? {
      return Failure(error.value);
    }
    var shown := Take(a[..], count.value);
    var cards := RenderProjectCards(shown, "Project", "View Project →");
    r := Ok(FeaturedHeader + cards + GridFooter);
  }

  // ---------------------------------------------------------------------------
  // section_list_shortcode

  const SectionNameMissing := "<p>Error: Section name not specified</p>"

  function SectionNotConfigured(name: string): string
  {
    "<p>Error: Section '" + name + "' not found in config</p>"
  }

  function SectionDirMissing(name: string): string
  {
    "<p>Error: Section directory '" + name + "' not found</p>"
  }

  /** `sections.get(name, {})`, or `SECTIONS.get(name, {})` when that is
      empty. */
  function SectionSettings(config: PortfolioConfig, name: string): (r: map<string, Value>)
    ensures name in config.sections && config.sections[name] != map[] ==> r == config.sections[name]
    ensures r != map[] ==> (name in config.sections && r == config.sections[name])
                           || (name in config.upperSections && r == config.upperSections[name])
  {
    if name in config.sections && config.sections[name] != map[] then config.sections[name]
    else if name in config.upperSections then config.upperSections[name]
    else map[]
  }

  /** What one file adds to `items`: its metadata with its url, or the
      unpacking error when its front matter is not closed. */
  function SectionItem(section: string, f: SourceFile): Result<map<string, Value>>
  {
    match FrontMatterOf(f.content, false)
    case Failure(e) => Failure(e)
    case Ok(meta) => Ok(WithUrl(meta, SectionUrl(section, f)))
  }

  /** An item is the file's front matter, all strings, with `url` set to
      `/<section>/<stem>.html` and every other entry kept. */
  lemma SectionItemFacts(section: string, f: SourceFile)
    ensures SectionItem(section, f).Ok? <==> FrontMatterOf(f.content, false).Ok?
    ensures SectionItem(section, f).Ok? ==>
      var m := SectionItem(section, f).value;
      var meta := FrontMatterOf(f.content, false).value;
      && AllStrings(m) && "url" in m && m["url"] == Str(SectionUrl(section, f))
      && forall k :: k in meta && k != "url" ==> k in m && m[k] == meta[k]
  {
    FrontMatterStrings(f.content);
  }

  function SectionItemOf(section: string): SourceFile -> Result<map<string, Value>>
  {
    (f: SourceFile) => SectionItem(section, f)
  }

  /** The `items` list: one entry per file, in glob order, or the error of
      the first file that raises. */
  function SectionItemList(files: seq<SourceFile>, section: string): Result<seq<map<string, Value>>>
  {
    Each(files, SectionItemOf(section))
  }

  /** The loop over `section_dir.glob('*.md')`. */
  method CollectSectionItems(files: seq<SourceFile>, section: string) returns (r: Result<seq<map<string, Value>>>)
    ensures r == SectionItemList(files, section)
  {
    var items := [];
    var i := 0;
    while i < |files|
      invariant 0 <= i <= |files|
      invariant SectionItemList(files[..i], section) == Ok(items)
    {
      assert files[..i + 1][..i] == files[..i];
      var metadata := ReadFrontMatter(files[i].content, false);
      if metadata.Failure? {
        EachFirstFailure(files, SectionItemOf(section), i);
        return Failure(metadata.error);
      }
      items := items + [WithUrl(metadata.value, SectionUrl(section, files[i]))];
      i := i + 1;
    }
    assert files[..i] == files;
    r := Ok(items);
  }

  /** `get_sort_key(item)`: `int()` of a truthy `order`, otherwise the value
      or `''`; a list as `sort_by` cannot be looked up at all. */
  function SortKeyOf(item: map<string, Value>, sortBy: Value): (r: Result<Value>)
    ensures sortBy.List? <==> r == Failure("unhashable type: 'list'")
    ensures r.Ok? && sortBy == Str("order") ==> r.value.Int? || r.value == Str("")
    ensures r.Ok? && sortBy != Str("order") && AllStrings(item) ==> r.value.Str?
  {
    if sortBy.List? then Failure("unhashable type: 'list'")
    else
      var key := if sortBy.Str? && sortBy.s in item then item[sortBy.s] else Null;
      if sortBy == Str("order") && Truthy(key) then
        match IntOf(key)
        case Failure(e) => IntErrorIsNotListError(key); Failure(e)
        case Ok(i) => Ok(Int(i))
      else if Truthy(key) then Ok(key)
      else Ok(Str(""))
  }

  /** `int()` never raises the message of a list used as a key. */
  lemma IntErrorIsNotListError(v: Value)
    ensures IntOf(v).Failure? ==> IntOf(v).error != "unhashable type: 'list'"
  {
    if IntOf(v).Failure? {
      assert |IntOf(v).error| > |"unhashable type: 'list'"|;
    }
  }

  /** The keys `list.sort` computes, in list order, or the error of the
      first one that raises. */
  function SortKeysOf(items: seq<map<string, Value>>, sortBy: Value): (r: Result<seq<Value>>)
    ensures r.Ok? <==> forall k :: 0 <= k < |items| ==> SortKeyOf(items[k], sortBy).Ok?
    ensures r.Ok? ==> |r.value| == |items| && forall k :: 0 <= k < |items| ==> SortKeyOf(items[k], sortBy) == Ok(r.value[k])
    decreases |items|
  {
    if items == [] then Ok([])
    else
      assert forall j :: 1 <= j < |items| ==> items[1..][j - 1] == items[j];
      match SortKeyOf(items[0], sortBy)
      case Failure(e) => Failure(e)
      case Ok(k) =>
        match SortKeysOf(items[1..], sortBy)
        case Failure(e) => Failure(e)
        case Ok(rest) => Ok([k] + rest)
  }

  function SortBySetting(section: map<string, Value>): Value
  {
    if "sort_by" in section then section["sort_by"] else Str("title")
  }

  function ReverseSetting(section: map<string, Value>): Value
  {
    if "reverse_sort" in section then section["reverse_sort"] else Bool(false)
  }

  /** `items.sort(key=get_sort_key, reverse=reverse_sort)`: `reverse` is
      converted first, then every key computed, then the keys compared. A
      sorted list is the items permuted so that each key may stand before
      the next (see `SectionSortStable` for the whole order). */
  function SortedItems(items: seq<map<string, Value>>, section: map<string, Value>): (r: Result<seq<map<string, Value>>>)
    ensures r.Ok? ==> multiset(r.value) == multiset(items) && |r.value| == |items|
    ensures r.Ok? ==> ReverseArgument(ReverseSetting(section)).Ok? && SortKeysOf(items, SortBySetting(section)).Ok?
    ensures r.Ok? ==>
      var keys := SortKeysOf(items, SortBySetting(section)).value;
      exists p :: IsPermutation(p, |keys|) && r.value == Permute(items, p)
        && AdjacentInOrder(keys, p, ReverseArgument(ReverseSetting(section)).value)
  {
    match ReverseArgument(ReverseSetting(section))
    case Failure(e) => Failure(e)
    case Ok(reverse) =>
      match SortKeysOf(items, SortBySetting(section))
      case Failure(e) => Failure(e)
      case Ok(keys) =>
        match Sort(keys, reverse)
        case Unorderable(a, b) => Failure(LtErrorMessage(a, b))
        case Ordered(p) =>
          PermuteIsPermutation(items, p);
          Ok(Permute(items, p))
  }

  /** A section's sorted items are in the order of their keys throughout
      (descending for `reverse_sort`), and items of equal key keep their
      glob order. This holds whenever the sort succeeds on a section's
      items: their front matter is all strings, so every key is a string or,
      sorting by `order`, a number. */
  lemma SectionSortStable(items: seq<map<string, Value>>, section: map<string, Value>)
    requires SortedItems(items, section).Ok?
    requires SortBySetting(section) == Str("order") || forall k :: 0 <= k < |items| ==> AllStrings(items[k])
    ensures var keys := SortKeysOf(items, SortBySetting(section)).value;
      exists p :: IsPermutation(p, |keys|) && SortedItems(items, section).value == Permute(items, p)
        && StablyOrdered(keys, p, ReverseArgument(ReverseSetting(section)).value)
  {
    var sortBy := SortBySetting(section);
    var reverse := ReverseArgument(ReverseSetting(section)).value;
    var keys := SortKeysOf(items, sortBy).value;
    assert forall k :: 0 <= k < |keys| ==> keys[k].Int? || keys[k].Str?;
    assert AllScalar(keys);
    SortedItemsOk(items, section);
    ScalarSortSucceedsIff(keys, reverse);
    ScalarSortStable(keys, reverse);
  }

  /** Sorting by any setting but `order` never raises once `reverse` is
      accepted: every key is a string, and the items come out in order of
      their keys (descending for `reverse`), ties in glob order. */
  lemma TextSortOrdered(items: seq<map<string, Value>>, section: map<string, Value>)
    requires forall k :: 0 <= k < |items| ==> AllStrings(items[k])
    requires ReverseArgument(ReverseSetting(section)).Ok?
    requires SortBySetting(section) != Str("order") && !SortBySetting(section).List?
    ensures SortedItems(items, section).Ok?
    ensures var sorted := SortedItems(items, section).value;
      var sortBy := SortBySetting(section);
      var reverse := ReverseArgument(ReverseSetting(section)).value;
      && (forall k :: 0 <= k < |sorted| ==> SortKeyOf(sorted[k], sortBy).Ok? && SortKeyOf(sorted[k], sortBy).value.Str?)
      && (forall a, b :: 0 <= a < b < |sorted| ==>
            NotAfter(SortKeyOf(sorted[a], sortBy).value, SortKeyOf(sorted[b], sortBy).value, reverse))
      && exists p :: IsPermutation(p, |items|) && sorted == Permute(items, p)
           && forall a, b :: 0 <= a < b < |items| && SortKeyOf(items[p[a]], sortBy) == SortKeyOf(items[p[b]], sortBy) ==> p[a] < p[b]
  {
    var sortBy := SortBySetting(section);
    var reverse := ReverseArgument(ReverseSetting(section)).value;
    var keys := SortKeysOf(items, sortBy).value;
    assert forall k :: 0 <= k < |keys| ==> keys[k].Str?;
    assert AllScalar(keys) && SameKind(keys);
    ScalarSortSucceedsIff(keys, reverse);
    SortedItemsOk(items, section);
    SectionSortStable(items, section);
    var p :| IsPermutation(p, |keys|) && SortedItems(items, section).value == Permute(items, p)
      && StablyOrdered(keys, p, reverse);
    TextKeysAlong(items, sortBy, keys, p, reverse);
  }

  lemma TextKeysAlong(items: seq<map<string, Value>>, sortBy: Value, keys: seq<Value>, p: seq<nat>, reverse: bool)
    requires |keys| == |items| && IsPermutation(p, |keys|) && StablyOrdered(keys, p, reverse)
    requires forall k :: 0 <= k < |items| ==> SortKeyOf(items[k], sortBy) == Ok(keys[k]) && keys[k].Str?
    ensures var sorted := Permute(items, p);
      && (forall k :: 0 <= k < |sorted| ==> SortKeyOf(sorted[k], sortBy).Ok? && SortKeyOf(sorted[k], sortBy).value.Str?)
      && (forall a, b :: 0 <= a < b < |sorted| ==>
            NotAfter(SortKeyOf(sorted[a], sortBy).value, SortKeyOf(sorted[b], sortBy).value, reverse))
      && forall a, b :: 0 <= a < b < |items| && SortKeyOf(items[p[a]], sortBy) == SortKeyOf(items[p[b]], sortBy) ==> p[a] < p[b]
  {
    var sorted := Permute(items, p);
    assert forall k :: 0 <= k < |sorted| ==> SortKeyOf(sorted[k], sortBy) == Ok(keys[p[k]]);
  }

  /** Sorted by `order`, the items come out by `int(order)`, ascending, or
      descending for `reverse_sort`, and of equal orders the one the glob
      found first comes first; when no item has an order, they keep glob
      order. */
  lemma OrderSortOrdered(items: seq<map<string, Value>>, section: map<string, Value>)
    requires SortBySetting(section) == Str("order") && SortedItems(items, section).Ok?
    ensures var sorted := SortedItems(items, section).value;
      var reverse := ReverseArgument(ReverseSetting(section)).value;
      && ((forall k :: 0 <= k < |items| ==> !HasOrder(items[k])) ==> sorted == items)
      && ((exists k :: 0 <= k < |items| && HasOrder(items[k])) ==>
            && (forall k :: 0 <= k < |sorted| ==> HasOrder(sorted[k]) && IntOf(sorted[k]["order"]).Ok?)
            && (forall a, b :: 0 <= a < b < |sorted| ==>
                  if reverse then IntOf(sorted[b]["order"]).value <= IntOf(sorted[a]["order"]).value
                  else IntOf(sorted[a]["order"]).value <= IntOf(sorted[b]["order"]).value)
            && exists p :: IsPermutation(p, |items|) && sorted == Permute(items, p)
                 && forall a, b :: 0 <= a < b < |items| && IntOf(items[p[a]]["order"]) == IntOf(items[p[b]]["order"]) ==> p[a] < p[b])
  {
    var reverse := ReverseArgument(ReverseSetting(section)).value;
    var keys := SortKeysOf(items, Str("order")).value;
    var sorted := SortedItems(items, section).value;
    OrderSortFailsIffMixed(items, section);
    SectionSortStable(items, section);
    var p :| IsPermutation(p, |keys|) && sorted == Permute(items, p) && StablyOrdered(keys, p, reverse);
    forall k | 0 <= k < |keys|
      ensures keys[k].Int? <==> HasOrder(items[k])
      ensures HasOrder(items[k]) ==> IntOf(items[k]["order"]) == Ok(keys[k].i)
      ensures !HasOrder(items[k]) ==> keys[k] == Str("")
    {
      OrderKeyKind(items[k]);
    }
    if forall k :: 0 <= k < |items| ==> !HasOrder(items[k]) {
      NoOrderKeepsGlobOrder(items, keys, p, reverse);
    } else {
      OrderedByNumber(items, keys, p, reverse);
    }
  }

  lemma NoOrderKeepsGlobOrder(items: seq<map<string, Value>>, keys: seq<Value>, p: seq<nat>, reverse: bool)
    requires |keys| == |items| && IsPermutation(p, |keys|) && StablyOrdered(keys, p, reverse)
    requires forall k :: 0 <= k < |keys| ==> keys[k] == Str("")
    ensures Permute(items, p) == items
  {
    forall a, b | 0 <= a < b < |p|
      ensures p[a] < p[b]
    {
      assert keys[p[a]] == keys[p[b]];
    }
    IncreasingPermutationIsIdentity(p, |keys|);
  }

  lemma OrderedByNumber(items: seq<map<string, Value>>, keys: seq<Value>, p: seq<nat>, reverse: bool)
    requires |keys| == |items| && IsPermutation(p, |keys|) && StablyOrdered(keys, p, reverse)
    requires forall k :: 0 <= k < |keys| ==> HasOrder(items[k]) && keys[k].Int? && IntOf(items[k]["order"]) == Ok(keys[k].i)
    ensures var sorted := Permute(items, p);
      && (forall k :: 0 <= k < |sorted| ==> HasOrder(sorted[k]) && IntOf(sorted[k]["order"]).Ok?)
      && (forall a, b :: 0 <= a < b < |sorted| ==>
            if reverse then IntOf(sorted[b]["order"]).value <= IntOf(sorted[a]["order"]).value
            else IntOf(sorted[a]["order"]).value <= IntOf(sorted[b]["order"]).value)
      && forall a, b :: 0 <= a < b < |items| && IntOf(items[p[a]]["order"]) == IntOf(items[p[b]]["order"]) ==> p[a] < p[b]
  {
    var sorted := Permute(items, p);
    forall a, b | 0 <= a < b < |sorted|
      ensures if reverse then IntOf(sorted[b]["order"]).value <= IntOf(sorted[a]["order"]).value
              else IntOf(sorted[a]["order"]).value <= IntOf(sorted[b]["order"]).value
    {
      assert NotAfter(keys[p[a]], keys[p[b]], reverse);
    }
    forall a, b | 0 <= a < b < |items| && IntOf(items[p[a]]["order"]) == IntOf(items[p[b]]["order"])
      ensures p[a] < p[b]
    {
      assert keys[p[a]] == keys[p[b]];
    }
  }

  /** Integer keys and `''` keys are of one class exactly when they are
      all integers or all `''`. */
  lemma OrderKeysOfOneKind(keys: seq<Value>)
    requires forall k :: 0 <= k < |keys| ==> keys[k].Int? || keys[k] == Str("")
    ensures AllScalar(keys)
    ensures SameKind(keys) <==> forall i, j :: 0 <= i < |keys| && 0 <= j < |keys| ==> keys[i].Int? == keys[j].Int?
  {
    assert forall k :: 0 <= k < |keys| ==> KindOf(keys[k]) == if keys[k].Int? then Numeric else Text;
  }

  /** The item has a truthy `order`. */
  predicate HasOrder(item: map<string, Value>)
  {
    "order" in item && Truthy(item["order"])
  }

  lemma OrderKeyKind(item: map<string, Value>)
    requires SortKeyOf(item, Str("order")).Ok?
    ensures SortKeyOf(item, Str("order")).value.Int? <==> HasOrder(item)
  {
  }

  lemma {:induction false} OrderKeysMixed(items: seq<map<string, Value>>, keys: seq<Value>)
    requires |keys| == |items|
    requires forall k :: 0 <= k < |keys| ==> keys[k].Int? || keys[k] == Str("")
    requires forall k :: 0 <= k < |keys| ==> (keys[k].Int? <==> HasOrder(items[k]))
    ensures AllScalar(keys)
    ensures SameKind(keys) <==> forall i, j :: 0 <= i < |items| && 0 <= j < |items| ==> HasOrder(items[i]) == HasOrder(items[j])
  {
    OrderKeysOfOneKind(keys);
  }

  /** Sorting by `order`, once every order that is set parses, raises
      exactly when some items have an order and others have none (an
      integer is then compared with `''`). */
  lemma OrderSortFailsIffMixed(items: seq<map<string, Value>>, section: map<string, Value>)
    requires ReverseArgument(ReverseSetting(section)).Ok?
    requires SortBySetting(section) == Str("order")
    requires SortKeysOf(items, Str("order")).Ok?
    ensures SortedItems(items, section).Ok? <==>
      forall i, j :: 0 <= i < |items| && 0 <= j < |items| ==> HasOrder(items[i]) == HasOrder(items[j])
  {
    var reverse := ReverseArgument(ReverseSetting(section)).value;
    var keys := SortKeysOf(items, Str("order")).value;
    forall k | 0 <= k < |keys|
      ensures keys[k].Int? || keys[k] == Str("")
      ensures keys[k].Int? <==> HasOrder(items[k])
    {
      OrderKeyKind(items[k]);
    }
    OrderKeysMixed(items, keys);
    ScalarSortSucceedsIff(keys, reverse);
    SortedItemsOk(items, section);
  }

  lemma SortedItemsOk(items: seq<map<string, Value>>, section: map<string, Value>)
    requires ReverseArgument(ReverseSetting(section)).Ok?
    requires SortKeysOf(items, SortBySetting(section)).Ok?
    ensures SortedItems(items, section).Ok? <==>
      Sort(SortKeysOf(items, SortBySetting(section)).value, ReverseArgument(ReverseSetting(section)).value).Ordered?
  {
  }

  /** `section_list_shortcode(content, attrs_string, site_config,
      page_context)`: the HTML, or the exception it raises. */
  function SectionListHtml(attrsString: string, config: PortfolioConfig, glob: Glob): Result<string>
  {
    var name := Lookup(ParseAttributes(attrsString), "section");
    if name.None? || name.value == [] then Ok(SectionNameMissing)
    else
      var section := SectionSettings(config, name.value);
      if section == map[] then Ok(SectionNotConfigured(name.value))
      else
        match ContentDirOf(config)
        case Failure(e) => Failure(e)
        case Ok(dir) =>
          match glob(dir, name.value)
          case None => Ok(SectionDirMissing(name.value))
          case Some(files) =>
            match SectionItemList(files, name.value)
            case Failure(e) => Failure(e)
            case Ok(items) =>
              match SortedItems(items, section)
              case Failure(e) => Failure(e)
              case Ok(sorted) => Ok(SectionHeader + ProjectCards(sorted, "Item", "View Details →") + GridFooter)
  }

  method SectionListShortcode(attrsString: string, config: PortfolioConfig, glob: Glob) returns (r: Result<string>)
    ensures r == SectionListHtml(attrsString, config, glob)
  {
    var attrs := ParseShortcodeAttributes(attrsString);
    var name := Lookup(attrs, "section");
    if name.None? || name.value == [] {
      return Ok(SectionNameMissing);
    }
    var section := SectionSettings(config, name.value);
    if section == map[] {
      return Ok(SectionNotConfigured(name.value));
    }
    var contentDir := ContentDirOf(config);
    if contentDir.Failure? {
      return Failure(contentDir.error);
    }
    var files := glob(contentDir.value, name.value);
    if files.None? {
      return Ok(SectionDirMissing(name.value));
    }
    var items := CollectSectionItems(files.value, name.value);
    if items.Failure? {
      return Failure(items.error);
    }
    var reverse := ReverseArgument(ReverseSetting(section));
    if reverse.Failure? {
      return Failure(reverse.error);
    }
    var keys := SortKeysOf(items.value, SortBySetting(section));
    if keys.Failure? {
      return Failure(keys.error);
    }
    var outcome := Sort(keys.value, reverse.value);
    if outcome.Unorderable? {
      return Failure(LtErrorMessage(outcome.left, outcome.right));
    }
    var a := MetadataArray(items.value);
    Rearrange(a, outcome.perm);
    var cards := RenderProjectCards(a[..], "Item", "View Details →");
    r := Ok(SectionHeader + cards + GridFooter);
  }

  // ---------------------------------------------------------------------------
  // SHORTCODES

  datatype PortfolioHandler = FeaturedProjectsFunction | SectionListFunction

  const Registered: map<string, PortfolioHandler> :=
    map["featured_projects" := FeaturedProjectsFunction, "section_list" := SectionListFunction]

  /** `SHORTCODES.get(name)`: exactly the two names have a function. */
  function HandlerFor(name: string): (r: Option<PortfolioHandler>)
    ensures r.Some? <==> name == "featured_projects" || name == "section_list"
    ensures r == Some(FeaturedProjectsFunction) <==> name == "featured_projects"
  {
    if name in Registered then Some(Registered[name]) else None
  }

  /** Calling a registered function. */
  function Call(h: PortfolioHandler, attrsString: string, config: PortfolioConfig, glob: Glob): Result<string>
  {
    match h
    case FeaturedProjectsFunction => FeaturedProjectsHtml(attrsString, config, glob)
    case SectionListFunction => SectionListHtml(attrsString, config, glob)
  }
}
