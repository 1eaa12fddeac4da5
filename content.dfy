/** `process_section` and `sort_items`: which files of a section become
    items, the URL each item gets, how the section's items are sorted, how
    the site-wide list of items grows, and the titles of the pages built from
    them. Reading the directory, parsing a file and writing pages are
    parameters or left out. */
module Content {
  import opened Text
  import opened Values
  import opened Items
  import opened Paths
  import opened Sorting
  import opened Markdown

  // ---------------------------------------------------------------------------
  // sort_items

  /** `'date' in sort_key` */
  predicate MentionsDate(key: string)
  {
    Find(key, "date", 0).Some?
  }

  /** `get_sort_value`: the value under `sort_key`, or, where it is missing
      or `None`, `date.min`/`date.max` for a key mentioning `date` (so that
      undated items come last either way) and `0` for any other key. A key
      that is not a string finds nothing, since front-matter keys are
      strings. */
  function SortValue(m: Metadata, sortKey: Value, reverse: bool): (r: Value)
    requires !sortKey.List?
    ensures r != Null
    ensures sortKey.Str? && Get(m, sortKey.s) != Null ==> r == Get(m, sortKey.s)
    ensures sortKey.Str? && Get(m, sortKey.s) == Null && MentionsDate(sortKey.s) ==>
      r == Date(if reverse then DateMin else DateMax)
    ensures (!sortKey.Str? || (Get(m, sortKey.s) == Null && !MentionsDate(sortKey.s))) ==> r == Int(0)
  {
    var value := if sortKey.Str? then Get(m, sortKey.s) else Null;
    if value != Null then value
    else if sortKey.Str? && MentionsDate(sortKey.s) then Date(if reverse then DateMin else DateMax)
    else Int(0)
  }

  function SortKeys(items: seq<ContentItem>, sortKey: Value, reverse: bool): (keys: seq<Value>)
    requires !sortKey.List?
    ensures |keys| == |items|
    ensures forall i :: 0 <= i < |items| ==> keys[i] == SortValue(items[i].metadata, sortKey, reverse)
  {
    seq(|items|, i requires 0 <= i < |items| => SortValue(items[i].metadata, sortKey, reverse))
  }

  /** `config.get("reverse_sort", False)` */
  function ReverseSetting(config: map<string, Value>): Value
  {
    if "reverse_sort" in config then config["reverse_sort"] else Bool(false)
  }

  /** What `sort_items` does to a list. */
  datatype SortOutcome =
    | Untouched                // no `sort_by`, or no items
    | Reordered(perm: seq<nat>) // `list.sort` applied this permutation
    | Warned(error: string)    // a `TypeError`, caught and reported
    | Raised(error: string)    // an `OverflowError`, which propagates

  /** `sort_items(items, config, section_key)`. `list.sort` converts `reverse`
      to a C `int` before it computes any key, then computes every key, then
      sorts; each step can raise. */
  function SortPlan(items: seq<ContentItem>, config: map<string, Value>): (r: SortOutcome)
    ensures r.Reordered? ==> IsPermutation(r.perm, |items|)
    ensures r.Reordered? ==>
      var sortKey, reverse := Get(config, "sort_by"), Truthy(ReverseSetting(config));
      !sortKey.List? && AdjacentInOrder(SortKeys(items, sortKey, reverse), r.perm, reverse)
  {
    var sortKey := Get(config, "sort_by");
    var reverseSort := ReverseSetting(config);
    if !Truthy(sortKey) || items == [] then Untouched
    else
      match ReverseArgument(reverseSort)
      case Failure(e) => if reverseSort.Int? then Raised(e) else Warned(e)
      case Ok(reverse) =>
        if sortKey.List? then Warned("unhashable type: 'list'")
        else
          match Sort(SortKeys(items, sortKey, reverse), reverse)
          case Ordered(p) => Reordered(p)
          case Unorderable(a, b) => Warned(LtErrorMessage(a, b))
  }

  /** The warning `sort_items` prints when the sort raises `TypeError`. */
  function SortWarning(sectionKey: string, sortKey: Value, error: string): string
  {
    "Could not sort section '" + sectionKey + "' by '" + PyStr(sortKey)
      + "'. Check data types are comparable. Error: " + error
  }

  /** The list after `sort_items`: reordered on success, as it was otherwise. */
  function Arranged(items: seq<ContentItem>, plan: SortOutcome): (r: seq<ContentItem>)
    requires plan.Reordered? ==> IsPermutation(plan.perm, |items|)
  {
    if plan.Reordered? then Permute(items, plan.perm) else items
  }

  /** Sorting never loses or duplicates an item. */
  lemma ArrangedIsPermutation(items: seq<ContentItem>, config: map<string, Value>)
    ensures multiset(Arranged(items, SortPlan(items, config))) == multiset(items)
  {
    var plan := SortPlan(items, config);
    if plan.Reordered? {
      PermuteIsPermutation(items, plan.perm);
    }
  }

  /** `sort_items` on the list in place. `report` is `Ok(None)` when nothing
      is printed, `Ok(Some(warning))` when the `TypeError` is caught, and
      `Failure(message)` for the exception that escapes. On failure the list
      is left as it was, one of the permutations Python may leave. */
  method SortItems(items: array<ContentItem>, config: map<string, Value>, sectionKey: string) returns (report: Result<Option<string>>)
    modifies items
    ensures var plan := SortPlan(old(items[..]), config);
      && items[..] == Arranged(old(items[..]), plan)
      && (plan.Untouched? || plan.Reordered? ==> report == Ok(None))
      && (plan.Warned? ==> report == Ok(Some(SortWarning(sectionKey, Get(config, "sort_by"), plan.error))))
      && (plan.Raised? ==> report == Failure(plan.error))
    ensures multiset(items[..]) == multiset(old(items[..]))
  {
    var before := items[..];
    var plan := SortPlan(before, config);
    match plan {
      case Untouched =>
        report := Ok(None);
      case Raised(e) =>
        report := Failure(e);
      case Warned(e) =>
        report := Ok(Some(SortWarning(sectionKey, Get(config, "sort_by"), e)));
      case Reordered(p) =>
        Rearrange(items, p);
        report := Ok(None);
    }
    ArrangedIsPermutation(before, config);
  }

  /** The value under `key` is a real date, or missing. */
  predicate DatedOrMissing(item: ContentItem, key: string)
  {
    var v := Get(item.metadata, key);
    v.Null? || (v.Date? && ValidDate(v.d))
  }

  /** `reverse_sort` is a `bool`, or an `int` that fits a C `int`. */
  predicate UsableReverse(config: map<string, Value>)
  {
    var v := ReverseSetting(config);
    v.Bool? || (v.Int? && IntMin <= v.i <= IntMax)
  }

  /** Sorting by a date key succeeds, and an undated item is followed only
      by undated items (or by items carrying the very date that stands in
      for a missing one): undated items come last in both directions. */
  lemma UndatedItemsLast(items: seq<ContentItem>, config: map<string, Value>, a: nat, b: nat)
    requires Get(config, "sort_by").Str? && MentionsDate(Get(config, "sort_by").s) && UsableReverse(config)
    requires forall i :: 0 <= i < |items| ==> DatedOrMissing(items[i], Get(config, "sort_by").s)
    requires a < b < |items|
    ensures SortPlan(items, config).Reordered?
    ensures var p, key := SortPlan(items, config).perm, Get(config, "sort_by").s;
      var reverse := Truthy(ReverseSetting(config));
      Get(items[p[a]].metadata, key).Null? ==>
        Get(items[p[b]].metadata, key) in {Null, Date(if reverse then DateMin else DateMax)}
  {
    var sortKey := Get(config, "sort_by");
    var reverse := Truthy(ReverseSetting(config));
    var keys := SortKeys(items, sortKey, reverse);
    DateKeysSort(items, sortKey.s, reverse);
    var p := Sort(keys, reverse).perm;
    ScalarSortOrdered(keys, reverse, a, b);
    if Get(items[p[a]].metadata, sortKey.s).Null? {
      UndatedFollower(items[p[a]].metadata, items[p[b]].metadata, sortKey.s, reverse);
    }
  }

  /** The value under `key` is missing or of a class `<` orders within. */
  predicate ScalarOrMissing(item: ContentItem, key: string)
  {
    var v := Get(item.metadata, key);
    v.Null? || IsScalar(v)
  }

  /** A `datetime` cannot be ordered against a `date`. When one item's date
      is a `datetime` (a front-matter timestamp with a time of day, which
      the date normalisation keeps) and another item's is a `date`, or is
      missing and so stands in as `date.min`/`date.max`, `sort_items` warns
      and leaves the list as it was. */
  lemma DateTimeAgainstDateWarns(items: seq<ContentItem>, config: map<string, Value>, i: nat, j: nat)
    requires Get(config, "sort_by").Str? && Get(config, "sort_by").s != [] && UsableReverse(config)
    requires var key := Get(config, "sort_by").s;
      forall k :: 0 <= k < |items| ==> ScalarOrMissing(items[k], key)
    requires i < |items| && j < |items|
    requires var key := Get(config, "sort_by").s;
      && Get(items[i].metadata, key).DateTime?
      && (Get(items[j].metadata, key).Date? || (Get(items[j].metadata, key).Null? && MentionsDate(key)))
    ensures SortPlan(items, config).Warned?
    ensures Arranged(items, SortPlan(items, config)) == items
  {
    var sortKey := Get(config, "sort_by");
    var reverse := Truthy(ReverseSetting(config));
    var keys := SortKeys(items, sortKey, reverse);
    assert keys[i].DateTime? && keys[j].Date?;
    assert !SameKind(keys) by {
      assert KindOf(keys[i]) != KindOf(keys[j]);
    }
    assert AllScalar(keys) by {
      forall k | 0 <= k < |keys|
        ensures IsScalar(keys[k])
      {
        assert ScalarOrMissing(items[k], sortKey.s);
      }
    }
    ScalarSortSucceedsIff(keys, reverse);
    assert ReverseArgument(ReverseSetting(config)) == Ok(reverse);
  }

  /** Date keys, with the stand-in date for missing ones, sort without error. */
  lemma DateKeysSort(items: seq<ContentItem>, key: string, reverse: bool)
    requires MentionsDate(key)
    requires forall i :: 0 <= i < |items| ==> DatedOrMissing(items[i], key)
    ensures var keys := SortKeys(items, Str(key), reverse);
      AllScalar(keys) && SameKind(keys) && Sort(keys, reverse).Ordered?
  {
    var keys := SortKeys(items, Str(key), reverse);
    assert forall i :: 0 <= i < |keys| ==> keys[i].Date? && ValidDate(keys[i].d);
    ScalarSortSucceedsIff(keys, reverse);
  }

  /** An item that sorts no earlier than an undated one is undated, or
      carries the date that stands in for a missing one. */
  lemma UndatedFollower(first: Metadata, next: Metadata, key: string, reverse: bool)
    requires MentionsDate(key) && Get(first, key).Null?
    requires var v := Get(next, key); v.Null? || (v.Date? && ValidDate(v.d))
    requires NotAfter(SortValue(first, Str(key), reverse), SortValue(next, Str(key), reverse), reverse)
    ensures Get(next, key) in {Null, Date(if reverse then DateMin else DateMax)}
  {
    var v := Get(next, key);
    if v.Date? {
      DateBounds(v.d);
      LatestDate(v.d);
    }
  }

  lemma LatestDate(d: CalDate)
    requires ValidDate(d)
    ensures !DateLt(d, DateMax) ==> d == DateMax
    ensures !DateLt(DateMin, d) ==> d == DateMin
  {
  }

  /** With no `sort_by`, or no items, the list is left alone. */
  lemma UnsortedWithoutKey(items: seq<ContentItem>, config: map<string, Value>)
    requires !Truthy(Get(config, "sort_by")) || items == []
    ensures Arranged(items, SortPlan(items, config)) == items
  {
  }

  // ---------------------------------------------------------------------------
  // process_section

  /** The filter of the discovery loop: `.md` in any case, not hidden. */
  predicate Accepted(filename: string)
  {
    EndsWith(Lower(filename), ".md") && !StartsWith(filename, ".")
  }

  /** `f"/{section_key}/{slug}.html"` */
  function ItemUrl(sectionKey: string, slug: string): string
  {
    "/" + sectionKey + "/" + slug + ".html"
  }

  /** A parsed file with `url` and `section_key` added. */
  function ItemOf(parsed: ParsedFile, sectionKey: string): ContentItem
  {
    ContentItem(parsed.metadata, parsed.contentHtml, Some(parsed.filepath), parsed.slug, ItemUrl(sectionKey, parsed.slug), sectionKey)
  }

  /** The items the loop collects from the directory listing `names`, in
      order. `isFile` stands for `os.path.isfile`, `load(filepath, latest)`
      for `parse_markdown_file` with a context whose `latest_items` are
      `latest`: the normalised metadata and the HTML, or `None` where it
      returned `None`. */
  function Discovered(dir: string, sectionKey: string, names: seq<string>, isFile: string -> bool,
                      load: (string, seq<ContentItem>) -> Option<(Metadata, string)>,
                      latest: seq<ContentItem>): seq<ContentItem>
    decreases |names|
  {
    if names == [] then []
    else
      Discovered(dir, sectionKey, names[..|names| - 1], isFile, load, latest)
        + EntryItems(dir, sectionKey, names[|names| - 1], isFile, load, latest)
  }

  /** What one directory entry adds to the items. */
  function EntryItems(dir: string, sectionKey: string, name: string, isFile: string -> bool,
                      load: (string, seq<ContentItem>) -> Option<(Metadata, string)>,
                      latest: seq<ContentItem>): seq<ContentItem>
  {
    var path := JoinPath(dir, name);
    if Accepted(name) && isFile(path) && load(path, latest).Some? then
      [ItemOf(ParsedFile(load(path, latest).value.0, load(path, latest).value.1, path, Slug(path)), sectionKey)]
    else []
  }

  /** `name` is an accepted file of the listing that the item `it` comes
      from. */
  predicate FromEntry(it: ContentItem, dir: string, sectionKey: string, name: string, isFile: string -> bool)
  {
    && it.sectionKey == sectionKey
    && it.url == ItemUrl(sectionKey, it.slug)
    && Accepted(name) && it.filepath == Some(JoinPath(dir, name)) && isFile(JoinPath(dir, name))
    && ('/' !in name ==> |name| >= 3 && it.slug == name[..|name| - 3])
  }

  /** The item comes from an entry of the listing `names`. */
  predicate FromListing(it: ContentItem, dir: string, sectionKey: string, names: seq<string>, isFile: string -> bool)
  {
    exists i :: 0 <= i < |names| && FromEntry(it, dir, sectionKey, names[i], isFile)
  }

  /** There are at most as many items as names, and each item belongs to
      the section, has its url, and comes from an accepted file of the
      listing whose name, less `.md`, is its slug. */
  lemma {:induction false} DiscoveredItems(dir: string, sectionKey: string, names: seq<string>, isFile: string -> bool,
                                           load: (string, seq<ContentItem>) -> Option<(Metadata, string)>,
                                           latest: seq<ContentItem>)
    ensures var r := Discovered(dir, sectionKey, names, isFile, load, latest);
      && |r| <= |names|
      && forall k :: 0 <= k < |r| ==> FromListing(r[k], dir, sectionKey, names, isFile)
    decreases |names|
  {
    if names != [] {
      var init := names[..|names| - 1];
      var name := names[|names| - 1];
      var prev := Discovered(dir, sectionKey, init, isFile, load, latest);
      var added := EntryItems(dir, sectionKey, name, isFile, load, latest);
      DiscoveredItems(dir, sectionKey, init, isFile, load, latest);
      EntryItemsFrom(dir, sectionKey, name, isFile, load, latest);
      AppendTraced(dir, sectionKey, isFile, prev, added, init, names);
    }
  }

  /** Appending the items of the last entry of `names` keeps every item
      traced to an entry of the listing. */
  lemma AppendTraced(dir: string, sectionKey: string, isFile: string -> bool,
                     prev: seq<ContentItem>, added: seq<ContentItem>, init: seq<string>, names: seq<string>)
    requires |names| == |init| + 1 && forall i :: 0 <= i < |init| ==> init[i] == names[i]
    requires forall k :: 0 <= k < |prev| ==> FromListing(prev[k], dir, sectionKey, init, isFile)
    requires forall k :: 0 <= k < |added| ==> FromEntry(added[k], dir, sectionKey, names[|init|], isFile)
    ensures forall k :: 0 <= k < |prev + added| ==> FromListing((prev + added)[k], dir, sectionKey, names, isFile)
  {
    var r := prev + added;
    forall k | 0 <= k < |r|
      ensures FromListing(r[k], dir, sectionKey, names, isFile)
    {
      if k < |prev| {
        var i :| 0 <= i < |init| && FromEntry(prev[k], dir, sectionKey, init[i], isFile);
        assert r[k] == prev[k];
      } else {
        assert r[k] == added[k - |prev|];
      }
    }
  }

  lemma EntryItemsFrom(dir: string, sectionKey: string, name: string, isFile: string -> bool,
                       load: (string, seq<ContentItem>) -> Option<(Metadata, string)>,
                       latest: seq<ContentItem>)
    ensures var added := EntryItems(dir, sectionKey, name, isFile, load, latest);
      |added| <= 1 && forall k :: 0 <= k < |added| ==> FromEntry(added[k], dir, sectionKey, name, isFile)
  {
    if EntryItems(dir, sectionKey, name, isFile, load, latest) != [] {
      SlugIfPlain(dir, name);
    }
  }

  lemma SlugIfPlain(dir: string, name: string)
    requires Accepted(name)
    ensures |name| >= 3 && ('/' !in name ==> Slug(JoinPath(dir, name)) == name[..|name| - 3])
  {
    assert |Lower(name)| == |name|;
    if '/' !in name {
      SlugOfMarkdownFile(dir, name);
    }
  }

  /** Every accepted file the loader reads becomes exactly one item: the
      items are as many as the accepted files that load. */
  function LoadedCount(dir: string, names: seq<string>, isFile: string -> bool,
                       load: (string, seq<ContentItem>) -> Option<(Metadata, string)>,
                       latest: seq<ContentItem>): nat
    decreases |names|
  {
    if names == [] then 0
    else
      var name := names[|names| - 1];
      var path := JoinPath(dir, name);
      LoadedCount(dir, names[..|names| - 1], isFile, load, latest)
        + (if Accepted(name) && isFile(path) && load(path, latest).Some? then 1 else 0)
  }

  lemma {:induction false} DiscoveredCount(dir: string, sectionKey: string, names: seq<string>, isFile: string -> bool,
                                           load: (string, seq<ContentItem>) -> Option<(Metadata, string)>,
                                           latest: seq<ContentItem>)
    ensures |Discovered(dir, sectionKey, names, isFile, load, latest)| == LoadedCount(dir, names, isFile, load, latest)
    decreases |names|
  {
    if names != [] {
      DiscoveredCount(dir, sectionKey, names[..|names| - 1], isFile, load, latest);
    }
  }

  lemma DiscoveredStep(dir: string, sectionKey: string, names: seq<string>, i: nat, isFile: string -> bool,
                       load: (string, seq<ContentItem>) -> Option<(Metadata, string)>,
                       latest: seq<ContentItem>)
    requires i < |names|
    ensures Discovered(dir, sectionKey, names[..i + 1], isFile, load, latest)
      == Discovered(dir, sectionKey, names[..i], isFile, load, latest) + EntryItems(dir, sectionKey, names[i], isFile, load, latest)
  {
    assert names[..i + 1][..i] == names[..i];
  }

  /** The loop over `os.listdir(section_dir)` that collects the items. */
  method DiscoverItems(dir: string, sectionKey: string, names: seq<string>, isFile: string -> bool,
                       load: (string, seq<ContentItem>) -> Option<(Metadata, string)>,
                       latest: seq<ContentItem>) returns (items: seq<ContentItem>)
    ensures items == Discovered(dir, sectionKey, names, isFile, load, latest)
  {
    items := [];
    var i := 0;
    while i < |names|
      invariant 0 <= i <= |names|
      invariant items == Discovered(dir, sectionKey, names[..i], isFile, load, latest)
    {
      DiscoveredStep(dir, sectionKey, names, i, isFile, load, latest);
      var path := JoinPath(dir, names[i]);
      var added := [];
      if Accepted(names[i]) && isFile(path) {
        var parsed := load(path, latest);
        if parsed.Some? {
          added := [ItemOf(ParsedFile(parsed.value.0, parsed.value.1, path, Slug(path)), sectionKey)];
        }
      }
      assert added == EntryItems(dir, sectionKey, names[i], isFile, load, latest);
      items := items + added;
      i := i + 1;
    }
    assert names[..|names|] == names;
  }

  /** The site-wide list `all_items` that sections are appended to. */
  class Site {
    var allItems: seq<ContentItem>

    constructor ()
      ensures allItems == []
    {
      allItems := [];
    }

    /** `process_section(config, jinja_env, section_key, section_config,
        all_items)`. `ready` says the section's content directory exists and
        its output directory and listing could be made; `names` is
        `os.listdir` of it. A section that is not a dict, or whose directory
        is not ready, yields no items and leaves `all_items` alone; otherwise
        the sorted items are returned and appended to `all_items`, unless
        sorting raised. */
    method ProcessSection(contentDir: string, sectionKey: string, sectionConfig: SectionConfig, ready: bool,
                          names: seq<string>, isFile: string -> bool,
                          load: (string, seq<ContentItem>) -> Option<(Metadata, string)>)
      returns (r: Result<seq<ContentItem>>)
      modifies this
      ensures sectionConfig.NotADict? || !ready ==> r == Ok([]) && allItems == old(allItems)
      ensures sectionConfig.Settings? && ready ==>
        var found := Discovered(JoinPath(contentDir, sectionKey), sectionKey, names, isFile, load, old(allItems));
        var plan := SortPlan(found, sectionConfig.entries);
        if plan.Raised? then r == Failure(plan.error) && allItems == old(allItems)
        else r == Ok(Arranged(found, plan)) && allItems == old(allItems) + r.value
    {
      if sectionConfig.NotADict? {
        return Ok([]);
      }
      var dir := JoinPath(contentDir, sectionKey);
      if !ready {
        return Ok([]);
      }
      var sectionItems := DiscoverItems(dir, sectionKey, names, isFile, load, allItems);
      var list := new ContentItem[|sectionItems|](k requires 0 <= k < |sectionItems| => sectionItems[k]);
      assert list[..] == sectionItems;
      var report := SortItems(list, sectionConfig.entries, sectionKey);
      if report.Failure? {
        return Failure(report.error);
      }
      sectionItems := list[..];
      allItems := allItems + sectionItems;
      r := Ok(sectionItems);
    }
  }

  // ---------------------------------------------------------------------------
  // Titles and descriptions

  /** The title of a page: the `title` entry when the key is present
      (rendered with `str()`), `fallback` otherwise, then the site name.
      Item pages fall back to `Untitled`, the about page to `About`, and a
      section's list page to its capitalised key. */
  function PageTitle(m: Metadata, fallback: string, siteName: string): (r: string)
    ensures EndsWith(r, " - " + siteName)
    ensures "title" !in m ==> r == fallback + " - " + siteName
  {
    var title := if "title" in m then PyStr(m["title"]) else fallback;
    EndsWithAppended(title, " - " + siteName);
    title + " - " + siteName
  }

  /** The description of an item's page: `description` when present, the
      site description otherwise. */
  function ItemDescription(m: Metadata, siteDescription: string): (r: Value)
    ensures "description" in m ==> r == m["description"]
    ensures "description" !in m ==> r == Str(siteDescription)
  {
    if "description" in m then m["description"] else Str(siteDescription)
  }

  lemma EndsWithAppended(s: string, suffix: string)
    ensures EndsWith(s + suffix, suffix)
  {
    assert (s + suffix)[|s|..] == suffix;
  }

  /** A title given in the front matter is used as written, while one that
      is present but empty (`None`) shows as `None`: the default applies
      only to a missing key. */
  lemma TitleFromFrontMatter(m: Metadata, siteName: string, title: string)
    ensures PageTitle(m["title" := Str(title)], "Untitled", siteName) == title + " - " + siteName
    ensures PageTitle(m["title" := Null], "Untitled", siteName) == "None - " + siteName
  {
  }

  /** A section without a title is listed under its capitalised key. */
  lemma PostsListTitle(siteName: string)
    ensures PageTitle(map[], Capitalize("posts"), siteName) == "Posts - " + siteName
  {
    assert Lower("osts") == "osts";
  }
}
