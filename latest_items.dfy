/** The portfolio include script `latest_items.py`: one record per project
    file, its front matter read with `true`/`false` turned into booleans,
    the records sorted by `order`. What `main` writes to
    `latest_items.json` is the result; the directory listing is a
    parameter: the files `projects_dir.glob('*.md')` yields with their
    text, in that order, or `None` when the directory does not exist. */
module LatestItems {
  import opened Text
  import opened Values
  import opened Paths
  import opened Sorting
  import opened PortfolioCommon

  /** The record `main` builds for one file, or the unpacking error of a
      front matter that is not closed. */
  function RecordOf(f: SourceFile): Result<ItemRecord>
  {
    match FrontMatterOf(f.content, true)
    case Failure(e) => Failure(e)
    case Ok(meta) =>
      Ok(ItemRecord(ProjectUrl(f), Stem(f.name), "projects", meta, "<h1>" + ShownValue(meta, "title", "Project") + "</h1>"))
  }

  /** Every record is a project page named after its file: the url is
      `/projects/<stem>.html`, the slug the stem, the section `projects`,
      the metadata the file's front matter and the HTML a heading with the
      title, or `Project` without one. */
  lemma RecordFields(f: SourceFile)
    requires RecordOf(f).Ok?
    ensures var r := RecordOf(f).value;
      && r.url == "/projects/" + r.slug + ".html" && r.slug == Stem(f.name)
      && StartsWith(f.name, r.slug)
      && r.sectionKey == "projects"
      && FrontMatterOf(f.content, true) == Ok(r.metadata)
      && r.contentHtml == "<h1>" + (if "title" in r.metadata then PyStr(r.metadata["title"]) else "Project") + "</h1>"
  {
  }

  /** The `latest_items` list the loop builds: one record per file, in glob
      order, or the error of the first file that raises. */
  function RecordList(files: seq<SourceFile>): Result<seq<ItemRecord>>
  {
    Each(files, RecordOf)
  }

  /** What `main` leaves behind: `None` when the projects directory does
      not exist (nothing is written), else the records sorted by order, or
      the exception that stops it. */
  function LatestItemsJson(projects: Option<seq<SourceFile>>): Result<Option<seq<ItemRecord>>>
  {
    match projects
    case None => Ok(None)
    case Some(files) =>
      match RecordList(files)
      case Failure(e) => Failure(e)
      case Ok(items) =>
        match SortedBy(items, RecordOrder)
        case Failure(e) => Failure(e)
        case Ok(sorted) => Ok(Some(sorted))
  }

  /** A missing directory writes nothing; otherwise writing fails exactly
      when a file's front matter is not closed or an `order` is not an
      integer. */
  lemma LatestItemsOutcome(projects: Option<seq<SourceFile>>)
    ensures projects.None? ==> LatestItemsJson(projects) == Ok(None)
    ensures projects.Some? ==>
      var files := projects.value;
      (LatestItemsJson(projects).Ok? <==>
        && (forall j :: 0 <= j < |files| ==> RecordOf(files[j]).Ok?)
        && (forall j :: 0 <= j < |files| ==> RecordOrder(RecordOf(files[j]).value).Ok?))
  {
    if projects.Some? {
      var files := projects.value;
      var items := RecordList(files);
      if items.Ok? {
        assert forall j :: 0 <= j < |files| ==> RecordOf(files[j]).value == items.value[j];
        assert LatestItemsJson(projects).Ok? <==> SortedBy(items.value, RecordOrder).Ok?;
      }
    }
  }

  /** The list written holds exactly the records of the files, one per
      file, in non-decreasing order; records of equal order keep the order
      of their files. */
  lemma LatestItemsWritten(files: seq<SourceFile>)
    requires LatestItemsJson(Some(files)).Ok?
    ensures var written := LatestItemsJson(Some(files)).value.value;
      var items := RecordList(files).value;
      && |written| == |files|
      && multiset(written) == multiset(items)
      && (forall a, b :: 0 <= a < b < |written| ==> RecordOrder(written[a]).value <= RecordOrder(written[b]).value)
      && exists p :: IsPermutation(p, |items|) && StableLowest(items, RecordOrder, p) && written == Permute(items, p)
  {
    var items := RecordList(files).value;
    assert LatestItemsJson(Some(files)).value.value == SortedBy(items, RecordOrder).value;
  }

  /** With no `order` in any file, the records are written in file order. */
  lemma UnorderedItemsInFileOrder(files: seq<SourceFile>)
    requires RecordList(files).Ok?
    requires forall k :: 0 <= k < |files| ==> "order" !in RecordList(files).value[k].metadata
    ensures LatestItemsJson(Some(files)) == Ok(Some(RecordList(files).value))
  {
    var items := RecordList(files).value;
    assert forall k :: 0 <= k < |items| ==> RecordOrder(items[k]) == Ok(999);
    EqualKeysKeepOrder(items, RecordOrder);
    assert LatestItemsJson(Some(files)) == Ok(Some(SortedBy(items, RecordOrder).value));
  }

  method RecordArray(xs: seq<ItemRecord>) returns (a: array<ItemRecord>)
    ensures fresh(a) && a[..] == xs
  {
    a := new ItemRecord[|xs|](i requires 0 <= i < |xs| => xs[i]);
  }

  /** `main()`: the loop over the files, then `latest_items.sort(...)` in
      place. */
  method GenerateLatestItems(projects: Option<seq<SourceFile>>) returns (r: Result<Option<seq<ItemRecord>>>)
    ensures r == LatestItemsJson(projects)
  {
    if projects.None? {
      return Ok(None);
    }
    var files := projects.value;
    var latestItems := [];
    var i := 0;
    while i < |files|
      invariant 0 <= i <= |files|
      invariant RecordList(files[..i]) == Ok(latestItems)
    {
      assert files[..i + 1][..i] == files[..i];
      var metadata := ReadFrontMatter(files[i].content, true);
      if metadata.Failure? {
        EachFirstFailure(files, RecordOf, i);
        return Failure(metadata.error);
      }
      var stem := Stem(files[i].name);
      var item := ItemRecord("/projects/" + stem + ".html", stem, "projects", metadata.value,
                             "<h1>" + ShownValue(metadata.value, "title", "Project") + "</h1>");
      latestItems := latestItems + [item];
      i := i + 1;
    }
    assert files[..i] == files;
    var a := RecordArray(latestItems);
    var error := SortBy(a, RecordOrder);
    if error.Some? {
      return Failure(error.value);
    }
    r := Ok(Some(a[..]));
  }

  /** Why the script coerces: a project marked `featured: false` (in any
      case) is not featured for the home page, while without coercion the
      non-empty string `false` would count as featured. */
  lemma FalseIsNotFeatured(word: string)
    requires Lower(word) == "false" && !IsSpace(word[0]) && !IsSpace(word[|word| - 1])
    ensures LineEntry("featured" + ": " + word, true) == Some(("featured", Bool(false)))
    ensures LineEntry("featured" + ": " + word, false) == Some(("featured", Str(word)))
    ensures !Truthy(Bool(false)) && Truthy(Str(word))
  {
    var line := "featured" + ": " + word;
    assert ':' !in "featured";
    LineRoundTrip("featured", word);
    assert LineEntry(line, false) == Some(("featured", Str(word)));
    CoercionChangesOnlyValue(line);
    assert Lower(word) != "true";
    assert word != [];
  }
}
