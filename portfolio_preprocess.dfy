/** The portfolio example's shortcode_preprocess.py, which rewrites
    `home.md` before the build: `[featured_projects ...]` and
    `[section_list ...]` are replaced with HTML built from
    `latest_items.json`, and every other bracketed word is kept. The files
    are parameters: the text of `home.md` and the parsed JSON, each `None`
    where the file does not exist. Exceptions are not caught anywhere in the
    script; they are `Failure`s here. */
module PortfolioPreprocess {
  import opened Text
  import opened Values
  import opened Scanning
  import opened Shortcodes
  import opened PortfolioCommon

  // ---------------------------------------------------------------------------
  // The pattern \[(\w+)(?:\s+([^\]]+))?\], without the core's lookarounds

  /** `m` is a match of the pattern at `p` in `s`. */
  predicate TagMatched(s: string, p: nat, m: Shortcode)
  {
    BracketText(s, p, m)
  }

  /** Where the parts of a match end: the name at `e`, the whitespace at
      `g` and the parameters at `q`, the closing `]`; all three are equal
      when there are no parameters. */
  datatype Cuts = Cuts(e: nat, g: nat, q: nat)

  /** The cuts of the match the pattern makes at `p`, found as the core's
      matcher finds them, but with nothing asked of the characters around
      the match. */
  function TagCuts(s: string, p: nat): Option<Cuts>
  {
    if p >= |s| || s[p] != '[' then None
    else
      var e := WordEnd(s, p + 1);
      if e == p + 1 || e == |s| then None
      else if s[e] == ']' then Some(Cuts(e, e, e))
      else ParamCuts(s, e)
  }

  /** The cuts after a name ending at `e`: whitespace, then parameters up to
      the first `]`. */
  function ParamCuts(s: string, e: nat): Option<Cuts>
    requires e < |s|
  {
    if !IsSpace(s[e]) then None else ParamsAfter(s, e, SpaceEnd(s, e))
  }

  /** The cuts once the whitespace after the name runs from `e` to `f`: the
      parameters start at `f`, or a character earlier when `]` is right
      there, and must not be empty. */
  function ParamsAfter(s: string, e: nat, f: nat): Option<Cuts>
    requires e < f <= |s|
  {
    if f == |s| then None
    else
      var g := if s[f] == ']' then f - 1 else f;
      if g == e then None
      else
        var q := CharFrom(s, g, ']');
        if q == |s| then None else Some(Cuts(e, g, q))
  }

  lemma TagCutsFacts(s: string, p: nat)
    requires TagCuts(s, p).Some?
    ensures var c := TagCuts(s, p).value;
      && p < |s| && s[p] == '[' && p + 1 < c.e <= c.g <= c.q < |s| && s[c.q] == ']' && AllWord(s[p + 1..c.e])
      && ((c.g == c.e && c.q == c.e && s[c.e] == ']')
          || (c.e < c.g < c.q < |s| && AllSpace(s[c.e..c.g]) && s[c.q] == ']' && ']' !in s[c.g..c.q]))
  {
    var c := TagCuts(s, p).value;
    if s[c.e] != ']' {
      assert ParamCuts(s, c.e) == Some(c);
      var f := SpaceEnd(s, c.e);
      forall k | c.e <= k < c.g
        ensures IsSpace(s[k])
      {
        assert s[k] == s[c.e..f][k - c.e];
      }
    }
  }

  /** The match the pattern makes at `p`, if any. */
  function TagAt(s: string, p: nat): Option<Shortcode>
  {
    match TagCuts(s, p)
    case None => None
    case Some(Cuts(e, g, q)) =>
      TagCutsFacts(s, p);
      if q == e then Some(Shortcode(p, e + 1, s[p + 1..e], [], None))
      else Some(Shortcode(p, q + 1, s[p + 1..e], s[e..g], Some(s[g..q])))
  }

  /** What `TagAt` finds is a match of the pattern. */
  lemma TagAtMatched(s: string, p: nat)
    ensures TagAt(s, p).Some? ==> TagMatched(s, p, TagAt(s, p).value)
  {
    if TagCuts(s, p).Some? {
      TagCutsFacts(s, p);
      var c := TagCuts(s, p).value;
      BracketSlices(s, p, c.e, c.g, c.q);
    }
  }

  /** Every match at `p` is found: `TagAt` answers with a match of the
      same name and the same end. */
  lemma TagFound(s: string, p: nat, m: Shortcode)
    requires TagMatched(s, p, m)
    ensures TagAt(s, p).Some? && TagAt(s, p).value.end == m.end && TagAt(s, p).value.name == m.name
  {
    BracketedCuts(s, p, m);
    var e := p + 1 + |m.name|;
    if m.gap != [] {
      assert s[e] != ']';
      assert TagCuts(s, p) == ParamCuts(s, e);
    }
  }

  /** A bracketed span cut into the name, the whitespace and the
      parameters. */
  lemma BracketSlices(s: string, p: nat, e: nat, g: nat, q: nat)
    requires p < e <= g <= q < |s| && s[p] == '[' && s[q] == ']'
    ensures s[p..q + 1] == "[" + s[p + 1..e] + s[e..g] + s[g..q] + "]"
  {
    SliceSplit(s, e, g, q);
    SliceSplit(s, p + 1, e, q);
    SliceSplit(s, p + 1, q, q + 1);
    SliceSplit(s, p, p + 1, q + 1);
    assert s[p..p + 1] == "[" && s[q..q + 1] == "]";
  }


  function TagEnd(s: string, p: nat): nat
  {
    match TagAt(s, p)
    case Some(m) => m.end
    case None => p
  }

  /** The core's pattern is this one with its two lookarounds added: it
      matches exactly where this one does, is not preceded by whitespace,
      and is not followed by `(`. */
  lemma CorePatternAddsLookarounds(s: string, p: nat)
    ensures ShortcodeAt(s, p) ==
      if TagAt(s, p).Some? && (p == 0 || !IsSpace(s[p - 1]))
         && (TagAt(s, p).value.end == |s| || s[TagAt(s, p).value.end] != '(')
      then TagAt(s, p) else None
  {
    if p < |s| && s[p] == '[' && !(p > 0 && IsSpace(s[p - 1])) {
      var e := WordEnd(s, p + 1);
      if e != p + 1 && e < |s| && s[e] != ']' && IsSpace(s[e]) {
        ParamsLookarounds(s, p, e);
      }
    }
  }

  lemma ParamsLookarounds(s: string, p: nat, e: nat)
    requires p < |s| && s[p] == '[' && (p == 0 || !IsSpace(s[p - 1]))
    requires e == WordEnd(s, p + 1) && p + 1 < e < |s| && s[e] != ']' && IsSpace(s[e])
    ensures TagCuts(s, p) == ParamCuts(s, e)
    ensures ShortcodeWithParams(s, p, e) ==
      if TagAt(s, p).Some? && (TagAt(s, p).value.end == |s| || s[TagAt(s, p).value.end] != '(')
      then TagAt(s, p) else None
  {
  }

  // The matcher looks only at the text from `p` on.

  lemma {:induction false} WordEndShift(s: string, k: nat, i: nat)
    requires k + i <= |s|
    ensures WordEnd(s[k..], i) == WordEnd(s, k + i) - k
    decreases |s| - k - i
  {
    if i < |s[k..]| && IsWordChar(s[k..][i]) {
      WordEndShift(s, k, i + 1);
    }
  }

  lemma {:induction false} SpaceEndShift(s: string, k: nat, i: nat)
    requires k + i <= |s|
    ensures SpaceEnd(s[k..], i) == SpaceEnd(s, k + i) - k
    decreases |s| - k - i
  {
    if i < |s[k..]| && IsSpace(s[k..][i]) {
      SpaceEndShift(s, k, i + 1);
    }
  }

  lemma {:induction false} CharFromShift(s: string, k: nat, i: nat, c: char)
    requires k + i <= |s|
    ensures CharFrom(s[k..], i, c) == CharFrom(s, k + i, c) - k
    decreases |s| - k - i
  {
    if i < |s[k..]| && s[k..][i] != c {
      CharFromShift(s, k, i + 1, c);
    }
  }

  function ShiftCuts(c: Option<Cuts>, k: nat): Option<Cuts>
  {
    match c
    case None => None
    case Some(Cuts(e, g, q)) => Some(Cuts(k + e, k + g, k + q))
  }

  lemma ParamCutsShift(s: string, t: string, k: nat, e: nat)
    requires k <= |s| && t == s[k..] && e < |t|
    ensures ParamCuts(s, k + e) == ShiftCuts(ParamCuts(t, e), k)
  {
    assert s[k + e] == t[e];
    if IsSpace(t[e]) {
      SpaceEndShift(s, k, e);
      ParamsAfterShift(s, t, k, e, SpaceEnd(t, e));
    }
  }

  lemma ParamsAfterShift(s: string, t: string, k: nat, e: nat, f: nat)
    requires k <= |s| && t == s[k..] && e < f <= |t|
    ensures ParamsAfter(s, k + e, k + f) == ShiftCuts(ParamsAfter(t, e, f), k)
  {
    if f < |t| {
      assert s[k + f] == t[f];
      var g := if t[f] == ']' then f - 1 else f;
      if g != e {
        CharFromShift(s, k, g, ']');
      }
    }
  }

  /** The matcher finds the same cuts, shifted, in a suffix of the text. */
  lemma TagCutsShift(s: string, t: string, k: nat, p: nat)
    requires k <= |s| && t == s[k..]
    ensures TagCuts(s, k + p) == ShiftCuts(TagCuts(t, p), k)
  {
    if p < |t| {
      assert s[k + p] == t[p];
      if t[p] == '[' {
        WordEndShift(s, k, p + 1);
        var e := WordEnd(t, p + 1);
        if e != p + 1 && e < |t| {
          assert s[k + e] == t[e];
          if t[e] != ']' {
            ParamCutsShift(s, t, k, e);
          }
        }
      }
    }
  }

  /** A match in a suffix of the text is a match, of the same name, in the
      whole text. */
  lemma TagAtSuffix(s: string, k: nat, p: nat)
    requires k <= |s| && TagAt(s[k..], p).Some?
    ensures TagAt(s, k + p).Some? && TagAt(s, k + p).value.name == TagAt(s[k..], p).value.name
  {
    var t := s[k..];
    TagCutsShift(s, t, k, p);
    var c := TagCuts(t, p).value;
    assert t[p + 1..c.e] == s[k + p + 1..k + c.e];
  }

  // ---------------------------------------------------------------------------
  // parse_shortcode_attributes: the same pattern as the core's parser

  /** The attributes of a tag: none for an empty string, else the
      `key="value"`/`key='value'` pairs, a later key overwriting. */
  function ParseAttributes(attrsString: string): (r: Params)
    ensures DistinctKeys(r)
    ensures attrsString == [] ==> r == []
  {
    if attrsString == [] then [] else ParseParams(attrsString)
  }

  /** Each attribute holds the value of the last pair naming it, and there
      is none for an empty string. */
  lemma AttributesLastWins(attrsString: string)
    ensures forall key :: Lookup(ParseAttributes(attrsString), key) == LastValue(FoundPairs(attrsString), key)
  {
    forall key
      ensures Lookup(ParseAttributes(attrsString), key) == LastValue(FoundPairs(attrsString), key)
    {
      if attrsString != [] {
        ParamsLastWins(attrsString, key);
      } else {
        assert FindAll(attrsString, 0, ParamPattern(attrsString)) == [];
      }
    }
  }

  /** Attributes written out as `key="value"` pairs, one space apart, read
      back as those pairs in order when the keys are distinct; a single
      attribute reads back whichever quotes enclose it. */
  lemma AttributesRoundTrip(pairs: seq<(string, string)>, q: char)
    requires IsQuote(q) && forall k :: 0 <= k < |pairs| ==> Writable(pairs[k].0, pairs[k].1)
    ensures DistinctKeys(pairs) ==> ParseAttributes(WrittenParams(pairs, q)) == pairs
    ensures forall key, value, q1, q2 | Writable(key, value) && IsQuote(q1) && IsQuote(q2) ::
      ParseAttributes(PairText(key, value, q1, q2)) == [(key, value)]
  {
    ParamsRoundTrip(pairs, q);
    if pairs != [] {
      assert |WrittenParams(pairs, q)| > 0;
    }
    forall key, value, q1, q2 | Writable(key, value) && IsQuote(q1) && IsQuote(q2)
      ensures ParseAttributes(PairText(key, value, q1, q2)) == [(key, value)]
    {
      ParamRoundTrip(key, value, q1, q2);
    }
  }

  /** The loop `for key, value in matches: attrs[key] = value`. */
  method ParseShortcodeAttributes(attrsString: string) returns (attrs: Params)
    ensures attrs == ParseAttributes(attrsString)
  {
    attrs := [];
    if attrsString == [] {
      return;
    }
    var matches := FoundPairs(attrsString);
    var i := 0;
    while i < |matches|
      invariant 0 <= i <= |matches| && DistinctKeys(attrs)
      invariant StoreAll(attrs, matches[i..]) == StoreAll([], matches)
    {
      assert matches[i..][1..] == matches[i + 1..];
      attrs := Store(attrs, matches[i].0, matches[i].1);
      i := i + 1;
    }
  }

  // ---------------------------------------------------------------------------
  // The two handlers

  const MissingJson := "<p>Error: latest_items.json not found. Run latest_items.py first.</p>"
  const NoFeatured := "<p>No featured projects found.</p>"
  const SectionRequired := "<p>Error: Section parameter is required.</p>"

  function NoSectionItems(section: string): string
  {
    "<p>No items found in section '" + section + "'.</p>"
  }


  /** The `TypeError` of calling `fname(**params)` where `fname` takes the
      one keyword `keyword`: the first other key, in order. */
  function UnexpectedKeyword(fname: string, keyword: string, params: Params): (r: Option<string>)
    ensures r.None? <==> forall k :: 0 <= k < |params| ==> params[k].0 == keyword
  {
    if params == [] then None
    else if params[0].0 != keyword then Some(fname + "() got an unexpected keyword argument '" + params[0].0 + "'")
    else UnexpectedKeyword(fname, keyword, params[1..])
  }

  /** `item.get('section_key') == 'projects' and item.get('metadata', {}).get('featured')` */
  predicate FeaturedRecord(r: ItemRecord)
  {
    r.sectionKey == "projects" && "featured" in r.metadata && Truthy(r.metadata["featured"])
  }

  function InSectionRecord(section: string): ItemRecord -> bool
  {
    (r: ItemRecord) => r.sectionKey == section
  }

  /** The projects `featured_projects` shows: the featured ones, sorted by
      order, the first `count` of them. */
  function FeaturedSelection(latest: seq<ItemRecord>, count: int): Result<seq<ItemRecord>>
  {
    match SortedBy(Select(latest, FeaturedRecord), RecordOrder)
    case Failure(e) => Failure(e)
    case Ok(sorted) => Ok(Take(sorted, count))
  }

  /** The `count` kept elements of lowest key: sorting the kept elements
      fails exactly when one has no key, and otherwise the first `count`
      of them are distinct kept elements of `xs` in non-decreasing key
      order, none left out having a lower key than one shown, and ties
      taken in list order. */
  lemma LowestSelected<T>(xs: seq<T>, keep: T -> bool, key: T -> Result<int>, count: int)
    ensures var kept := Select(xs, keep);
      var sorted := SortedBy(kept, key);
      && (sorted.Ok? <==> forall k :: 0 <= k < |kept| ==> key(kept[k]).Ok?)
      && (sorted.Ok? ==>
            var shown := Take(sorted.value, count);
            && |shown| == SliceLength(|kept|, count)
            && (forall k :: 0 <= k < |shown| ==> keep(shown[k]) && shown[k] in xs)
            && multiset(shown) <= multiset(kept)
            && (forall a, b :: 0 <= a < b < |shown| ==> key(shown[a]).value <= key(shown[b]).value)
            && (forall x :: x in kept && x !in shown ==>
                  forall k :: 0 <= k < |shown| ==> key(shown[k]).value <= key(x).value)
            && StableFirst(kept, key, shown))
  {
    var kept := Select(xs, keep);
    var sorted := SortedBy(kept, key);
    if sorted.Ok? {
      var shown := Take(sorted.value, count);
      TakeLowest(kept, key, count);
      forall k | 0 <= k < |shown|
        ensures keep(shown[k]) && shown[k] in xs
      {
        SelectMembership(xs, keep, shown[k]);
      }
    }
  }

  /** `featured_projects` shows the `count` featured projects of lowest
      order: each one shown is a featured project of the list, none twice,
      in non-decreasing order, none left out comes before one shown, and of
      equal orders the one listed first is shown first. Sorting fails
      exactly when a featured project's `order` is not an integer. */
  lemma FeaturedSelectionProperties(latest: seq<ItemRecord>, count: int)
    ensures var featured := Select(latest, FeaturedRecord);
      var r := FeaturedSelection(latest, count);
      && (r.Ok? <==> forall k :: 0 <= k < |featured| ==> RecordOrder(featured[k]).Ok?)
      && (r.Ok? ==>
            var shown := r.value;
            && |shown| == SliceLength(|featured|, count)
            && (forall k :: 0 <= k < |shown| ==> FeaturedRecord(shown[k]) && shown[k] in latest)
            && multiset(shown) <= multiset(featured)
            && (forall a, b :: 0 <= a < b < |shown| ==> RecordOrder(shown[a]).value <= RecordOrder(shown[b]).value)
            && (forall x :: x in featured && x !in shown ==>
                  forall k :: 0 <= k < |shown| ==> RecordOrder(shown[k]).value <= RecordOrder(x).value)
            && StableFirst(featured, RecordOrder, shown))
  {
    LowestSelected(latest, FeaturedRecord, RecordOrder, count);
    var sorted := SortedBy(Select(latest, FeaturedRecord), RecordOrder);
    if sorted.Ok? {
      assert FeaturedSelection(latest, count) == Ok(Take(sorted.value, count));
    }
  }

  /** With no `order` on any featured project, the first `count` featured
      projects of `latest_items.json` are shown, in its order. */
  lemma UnorderedFeaturedInListOrder(latest: seq<ItemRecord>, count: int)
    requires NoneOrdered(latest)
    ensures FeaturedSelection(latest, count) == Ok(Take(Select(latest, FeaturedRecord), count))
  {
    NoOrderKeys(latest);
    FeaturedKeepOrder(latest, count);
  }

  lemma FeaturedKeepOrder(latest: seq<ItemRecord>, count: int)
    requires AllKeyed(latest, RecordOrder, 999)
    ensures FeaturedSelection(latest, count) == Ok(Take(Select(latest, FeaturedRecord), count))
  {
    SelectedKeepOrder(latest, FeaturedRecord, RecordOrder, 999);
  }

  /** No record carries an `order` key in its metadata. */
  predicate NoneOrdered(records: seq<ItemRecord>)
  {
    forall k :: 0 <= k < |records| ==> "order" !in records[k].metadata
  }

  lemma NoOrderKeys(records: seq<ItemRecord>)
    requires NoneOrdered(records)
    ensures AllKeyed(records, RecordOrder, 999)
  {
  }

  /** Kept elements that all share one key stay in list order. */
  lemma SelectedKeepOrder<T>(xs: seq<T>, keep: T -> bool, key: T -> Result<int>, c: int)
    requires AllKeyed(xs, key, c)
    ensures SortedBy(Select(xs, keep), key) == Ok(Select(xs, keep))
  {
    SelectedKeys(xs, keep, key, c);
    ConstantKeysKeepOrder(Select(xs, keep), key, c);
  }

  lemma SelectedKeys<T>(xs: seq<T>, keep: T -> bool, key: T -> Result<int>, c: int)
    requires AllKeyed(xs, key, c)
    ensures AllKeyed(Select(xs, keep), key, c)
  {
    forall k | 0 <= k < |Select(xs, keep)|
      ensures key(Select(xs, keep)[k]) == Ok(c)
    {
      var x := Select(xs, keep)[k];
      SelectMembership(xs, keep, x);
      var j :| 0 <= j < |xs| && xs[j] == x;
    }
  }


  /** The summary paragraph, present only when the metadata has `summary`. */
  function SummaryHtml(m: map<string, Value>): string
  {
    if "summary" in m then "<p>" + PyStr(m["summary"]) + "</p>\n" else ""
  }

  function TagSpans(tags: seq<Value>): string
  {
    if tags == [] then ""
    else TagSpans(tags[..|tags| - 1]) + "<span class=\"tag\">" + PyStr(tags[|tags| - 1]) + "</span>\n"
  }

  /** The tags that are shown: the first three, and only when `tags` is a
      list. */
  function ShownTags(m: map<string, Value>): (r: Option<seq<Value>>)
    ensures r.Some? ==> "tags" in m && m["tags"].List? && |r.value| <= 3 && |r.value| <= |m["tags"].elems|
                        && r.value == m["tags"].elems[..|r.value|]
    ensures r.None? <==> "tags" !in m || !m["tags"].List?
  {
    if "tags" in m && m["tags"].List? then Some(Take(m["tags"].elems, 3)) else None
  }

  function TagsHtml(m: map<string, Value>): string
  {
    match ShownTags(m)
    case None => ""
    case Some(tags) => "<div class=\"tags\">\n" + TagSpans(tags) + "</div>\n"
  }

  /** One `project-card` block. */
  function Card(r: ItemRecord, defaultTitle: string, linkText: string): string
  {
    "<div class=\"project-card\">\n"
    + "<div class=\"project-card-content\">\n"
    + "<h3><a href=\"" + r.url + "\">" + ShownValue(r.metadata, "title", defaultTitle) + "</a></h3>\n"
    + SummaryHtml(r.metadata)
    + TagsHtml(r.metadata)
    + "<a href=\"" + r.url + "\" class=\"read-more\">" + linkText + "</a>\n"
    + "</div>\n"
    + "</div>\n"
  }

  function Cards(rs: seq<ItemRecord>, defaultTitle: string, linkText: string): string
  {
    if rs == [] then "" else Cards(rs[..|rs| - 1], defaultTitle, linkText) + Card(rs[|rs| - 1], defaultTitle, linkText)
  }

  method RenderTags(tags: seq<Value>) returns (html: string)
    ensures html == TagSpans(tags)
  {
    html := "";
    var i := 0;
    while i < |tags|
      invariant 0 <= i <= |tags|
      invariant html == TagSpans(tags[..i])
    {
      assert tags[..i + 1][..i] == tags[..i];
      html := html + "<span class=\"tag\">" + PyStr(tags[i]) + "</span>\n";
      i := i + 1;
    }
    assert tags[..i] == tags;
  }

  /** The HTML one iteration of the loop over the items adds. */
  method RenderCard(r: ItemRecord, defaultTitle: string, linkText: string) returns (card: string)
    ensures card == Card(r, defaultTitle, linkText)
  {
    var tags := "";
    var shown := ShownTags(r.metadata);
    if shown.Some? {
      var spans := RenderTags(shown.value);
      tags := "<div class=\"tags\">\n" + spans + "</div>\n";
    }
    card := "<div class=\"project-card\">\n"
      + "<div class=\"project-card-content\">\n"
      + "<h3><a href=\"" + r.url + "\">" + ShownValue(r.metadata, "title", defaultTitle) + "</a></h3>\n"
      + SummaryHtml(r.metadata)
      + tags
      + "<a href=\"" + r.url + "\" class=\"read-more\">" + linkText + "</a>\n"
      + "</div>\n"
      + "</div>\n";
  }

  /** The loop `for project in ...: html += ...`: one card per item, in
      order. */
  method RenderCards(rs: seq<ItemRecord>, defaultTitle: string, linkText: string) returns (html: string)
    ensures html == Cards(rs, defaultTitle, linkText)
  {
    html := "";
    var i := 0;
    while i < |rs|
      invariant 0 <= i <= |rs|
      invariant html == Cards(rs[..i], defaultTitle, linkText)
    {
      assert rs[..i + 1][..i] == rs[..i];
      var card := RenderCard(rs[i], defaultTitle, linkText);
      html := html + card;
      i := i + 1;
    }
    assert rs[..i] == rs;
  }

  /** `featured_projects_shortcode(**params)`. */
  function FeaturedProjectsHtml(params: Params, latest: Option<seq<ItemRecord>>): Result<string>
  {
    match UnexpectedKeyword("featured_projects_shortcode", "count", params)
    case Some(e) => Failure(e)
    case None =>
      match CountParam(params)
      case Failure(e) => Failure(e)
      case Ok(count) =>
        if latest.None? then Ok(MissingJson)
        else
          match FeaturedSelection(latest.value, count)
          case Failure(e) => Failure(e)
          case Ok(shown) =>
            if shown == [] then Ok(NoFeatured)
            else Ok(FeaturedHeader + Cards(shown, "Project", "View Project →") + GridFooter)
  }

  /** `section_list_shortcode(**params)`: all the section's items, sorted by
      order. */
  function SectionListHtml(params: Params, latest: Option<seq<ItemRecord>>): Result<string>
  {
    match UnexpectedKeyword("section_list_shortcode", "section", params)
    case Some(e) => Failure(e)
    case None =>
      var section := Lookup(params, "section");
      if section.None? || section.value == [] then Ok(SectionRequired)
      else if latest.None? then Ok(MissingJson)
      else
        var items := Select(latest.value, InSectionRecord(section.value));
        if items == [] then Ok(NoSectionItems(section.value))
        else
          match SortedBy(items, RecordOrder)
          case Failure(e) => Failure(e)
          case Ok(sorted) => Ok(SectionHeader + Cards(sorted, "Item", "View Details →") + GridFooter)
  }

  method ToArray(xs: seq<ItemRecord>) returns (a: array<ItemRecord>)
    ensures fresh(a) && a[..] == xs
  {
    a := new ItemRecord[|xs|](i requires 0 <= i < |xs| => xs[i]);
  }

  method FeaturedProjectsShortcode(params: Params, latest: Option<seq<ItemRecord>>) returns (r: Result<string>)
    ensures r == FeaturedProjectsHtml(params, latest)
  {
    var unexpected := UnexpectedKeyword("featured_projects_shortcode", "count", params);
    if unexpected.Some? {
      return Failure(unexpected.value);
    }
    var count := CountParam(params);
    if count.Failure? {
      return Failure(count.error);
    }
    if latest.None? {
      return Ok(MissingJson);
    }
    var featured := CollectItems(latest.value, FeaturedRecord);
    var a := ToArray(featured);
    var error := SortBy(a, RecordOrder);
    if error.Some? {
      return Failure(error.value);
    }
    var shown := Take(a[..], count.value);
    if shown == [] {
      return Ok(NoFeatured);
    }
    var cards := RenderCards(shown, "Project", "View Project →");
    r := Ok(FeaturedHeader + cards + GridFooter);
  }

  method SectionListShortcode(params: Params, latest: Option<seq<ItemRecord>>) returns (r: Result<string>)
    ensures r == SectionListHtml(params, latest)
  {
    var unexpected := UnexpectedKeyword("section_list_shortcode", "section", params);
    if unexpected.Some? {
      return Failure(unexpected.value);
    }
    var section := Lookup(params, "section");
    if section.None? || section.value == [] {
      return Ok(SectionRequired);
    }
    if latest.None? {
      return Ok(MissingJson);
    }
    var items := CollectItems(latest.value, InSectionRecord(section.value));
    if items == [] {
      return Ok(NoSectionItems(section.value));
    }
    var a := ToArray(items);
    var error := SortBy(a, RecordOrder);
    if error.Some? {
      return Failure(error.value);
    }
    var cards := RenderCards(a[..], "Item", "View Details →");
    r := Ok(SectionHeader + cards + GridFooter);
  }

  // ---------------------------------------------------------------------------
  // process_shortcodes and preprocess_home_md

  predicate Handled(name: string)
  {
    name == "featured_projects" || name == "section_list"
  }

  /** What `replace_shortcode` returns for the match at `span`. */
  function ReplaceTag(s: string, span: Span, latest: Option<seq<ItemRecord>>): Result<string>
  {
    match TagAt(s, span.start)
    case None => Ok([])
    case Some(m) =>
      var params := ParseAttributes(ParamText(m.params));
      if m.name == "featured_projects" then FeaturedProjectsHtml(params, latest)
      else if m.name == "section_list" then SectionListHtml(params, latest)
      else Ok(s[m.start..m.end])
  }

  /** `process_shortcodes(content)` */
  function ProcessShortcodes(s: string, latest: Option<seq<ItemRecord>>): Result<string>
  {
    TrySub(s, 0, p => TagEnd(s, p), span => ReplaceTag(s, span, latest))
  }

  /** Every match names something other than the two handlers. */
  ghost predicate NothingHandled(s: string)
  {
    forall p :: TagAt(s, p).Some? ==> !Handled(TagAt(s, p).value.name)
  }

  /** Any other bracketed word is returned as it was. */
  lemma OtherNamesVerbatim(s: string, p: nat, latest: Option<seq<ItemRecord>>)
    requires TagAt(s, p).Some? && !Handled(TagAt(s, p).value.name)
    ensures ReplaceTag(s, Span(p, TagEnd(s, p)), latest) == Ok(s[p..TagEnd(s, p)])
  {
  }

  /** Text in which no match names a handler comes back unchanged. */
  lemma UnhandledTextUnchanged(s: string, latest: Option<seq<ItemRecord>>)
    requires NothingHandled(s)
    ensures ProcessShortcodes(s, latest) == Ok(s)
  {
    var matchEnd := (p: nat) => TagEnd(s, p);
    var repl := (span: Span) => ReplaceTag(s, span, latest);
    forall p | 0 <= p && MatchesAt(s, matchEnd, p)
      ensures repl(Span(p, matchEnd(p))) == Ok(s[p..matchEnd(p)])
    {
      OtherNamesVerbatim(s, p, latest);
    }
    TrySubIdentity(s, 0, matchEnd, repl);
  }

  /** The text written back to `home.md`: with front matter, only the body
      after the second `---` is processed and the rest is put back as it
      was; otherwise the whole text is processed. */
  function Preprocessed(content: string, latest: Option<seq<ItemRecord>>): Result<string>
  {
    var parts := SplitDashes(content);
    if StartsWith(content, "---") && |parts| >= 3 then
      match ProcessShortcodes(parts[2], latest)
      case Failure(e) => Failure(e)
      case Ok(body) => Ok("---" + parts[1] + "---" + body)
    else ProcessShortcodes(content, latest)
  }

  /** `preprocess_home_md()`: `Ok(None)` when `home.md` does not exist (the
      function returns `False` and writes nothing), `Ok(Some(text))` for the
      text it writes back, `Failure` for an exception a handler raises. */
  function PreprocessHomeMd(home: Option<string>, latest: Option<seq<ItemRecord>>): (r: Result<Option<string>>)
    ensures home.None? ==> r == Ok(None)
    ensures home.Some? ==> (r.Ok? <==> Preprocessed(home.value, latest).Ok?)
    ensures home.Some? && r.Ok? ==> r.value == Some(Preprocessed(home.value, latest).value)
  {
    match home
    case None => Ok(None)
    case Some(content) =>
      match Preprocessed(content, latest)
      case Failure(e) => Failure(e)
      case Ok(text) => Ok(Some(text))
  }

  lemma {:induction false} FindFirstAt(s: string, pat: string, from: nat, j: nat)
    requires |pat| > 0 && from <= j && OccursAt(s, pat, j)
    requires forall i :: from <= i < j ==> !OccursAt(s, pat, i)
    ensures Find(s, pat, from) == Some(j)
    decreases j - from
  {
    if from < j {
      FindFirstAt(s, pat, from + 1, j);
    }
  }

  /** `---` does not occur in `fm + "---"` before its end. */
  ghost predicate NoDashesIn(fm: string)
  {
    forall i :: 0 <= i < |fm| ==> !OccursAt(fm + "---", "---", i)
  }

  /** Front matter without `---` in it, put back between two `---`, splits
      off again unchanged. */
  lemma RejoinSplits(fm: string, body: string)
    requires NoDashesIn(fm)
    ensures SplitDashes("---" + fm + "---" + body) == [[], fm, body]
  {
    var out := "---" + fm + "---" + body;
    var j := 3 + |fm|;
    DashesAround(fm, body);
    assert out[3..j] == fm && out[j + 3..] == body;
  }

  /** The two `---` that `split` finds around such front matter. */
  lemma DashesAround(fm: string, body: string)
    requires NoDashesIn(fm)
    ensures Find("---" + fm + "---" + body, "---", 0) == Some(0)
    ensures Find("---" + fm + "---" + body, "---", 3) == Some(3 + |fm|)
  {
    var out := "---" + fm + "---" + body;
    var w := fm + "---";
    var j := 3 + |fm|;
    assert out[3..j + 3] == w;
    assert OccursAt(out, "---", 0) by {
      assert out[..3] == "---";
    }
    FindFirstAt(out, "---", 0, 0);
    forall i | 3 <= i < j
      ensures !OccursAt(out, "---", i)
    {
      assert !OccursAt(w, "---", i - 3);
      SliceOfSlice(out, 3, j + 3, i - 3, i);
    }
    FindFirstAt(out, "---", 3, j);
  }

  /** The front matter `split('---', 2)` cuts out has no `---` in it. */
  lemma SplitFrontMatterHasNoDashes(content: string)
    requires StartsWith(content, "---") && |SplitDashes(content)| == 3
    ensures NoDashesIn(SplitDashes(content)[1])
  {
    assert OccursAt(content, "---", 0);
    FindFirstAt(content, "---", 0, 0);
    var j := Find(content, "---", 3).value;
    var fm := SplitDashes(content)[1];
    assert fm == content[3..j];
    assert content[3..j + 3] == fm + "---";
    forall i | 0 <= i < |fm|
      ensures !OccursAt(fm + "---", "---", i)
    {
      assert !OccursAt(content, "---", 3 + i);
      SliceOfSlice(content, 3, j + 3, i, i + 3);
    }
  }

  /** With front matter, the front matter is written back verbatim: the
      written text splits into the same front matter, followed by the
      processed body. */
  lemma FrontMatterPreserved(content: string, latest: Option<seq<ItemRecord>>)
    requires StartsWith(content, "---") && |SplitDashes(content)| == 3
    requires Preprocessed(content, latest).Ok?
    ensures var parts := SplitDashes(content);
      && ProcessShortcodes(parts[2], latest).Ok?
      && SplitDashes(Preprocessed(content, latest).value) == [[], parts[1], ProcessShortcodes(parts[2], latest).value]
  {
    var parts := SplitDashes(content);
    SplitFrontMatterHasNoDashes(content);
    RejoinSplits(parts[1], ProcessShortcodes(parts[2], latest).value);
  }

  /** No match in a suffix names a handler when none in the text does. */
  lemma NothingHandledSuffix(s: string, k: nat, t: string)
    requires k <= |s| && t == s[k..] && NothingHandled(s)
    ensures NothingHandled(t)
  {
    forall p | TagAt(t, p).Some?
      ensures !Handled(TagAt(t, p).value.name)
    {
      TagAtSuffix(s, k, p);
    }
  }

  /** The body after the front matter is the suffix of the text. */
  lemma BodyIsSuffix(content: string)
    requires StartsWith(content, "---") && |SplitDashes(content)| >= 3
    ensures var parts := SplitDashes(content);
      && |parts[2]| <= |content| && content[|content| - |parts[2]|..] == parts[2]
      && content == "---" + parts[1] + "---" + parts[2]
  {
    var parts := SplitDashes(content);
    assert content == parts[0] + "---" + parts[1] + "---" + parts[2];
  }

  /** The text the shortcodes run over: the body after the front matter,
      or the whole text when it has none. */
  function BodyOf(content: string): (r: string)
    ensures |r| <= |content| && content[|content| - |r|..] == r
  {
    var parts := SplitDashes(content);
    if StartsWith(content, "---") && |parts| >= 3 then
      BodyIsSuffix(content);
      parts[2]
    else content
  }

  /** A text whose body holds no match naming a handler is written back
      exactly as it was read: the front matter is copied as it is, whatever
      it contains. */
  lemma PreprocessRoundTrip(content: string, latest: Option<seq<ItemRecord>>)
    requires NothingHandled(BodyOf(content))
    ensures Preprocessed(content, latest) == Ok(content)
  {
    var parts := SplitDashes(content);
    if StartsWith(content, "---") && |parts| >= 3 {
      BodyIsSuffix(content);
    }
    UnhandledTextUnchanged(BodyOf(content), latest);
  }

  /** When no match in the whole text names a handler, none in its body
      does either. */
  lemma UnhandledTextHasUnhandledBody(content: string)
    requires NothingHandled(content)
    ensures NothingHandled(BodyOf(content))
  {
    var body := BodyOf(content);
    NothingHandledSuffix(content, |content| - |body|, body);
  }
}
