/** The asset processor that runs inside Markdown conversion
    (zerodown/markdown.py): relative image sources and link targets are
    rewritten into site URLs. */
module AssetLinks {
  import opened Text
  import opened Paths

  /** Image sources left alone: already absolute. */
  predicate AbsoluteSource(src: string)
  {
    StartsWith(src, "http://") || StartsWith(src, "https://") || StartsWith(src, "/")
  }

  /** Link targets left alone: absolute, an anchor or a mail address. */
  predicate AbsoluteTarget(href: string)
  {
    AbsoluteSource(href) || StartsWith(href, "#") || StartsWith(href, "mailto:")
  }

  /** The directory the rewriter takes for the content root: the parent of
      the item's directory's parent, so for `content/posts/a.md` it is the
      directory that holds `content` itself. */
  function ContentRoot(itemPath: string): string
  {
    Dirname(Dirname(Dirname(itemPath)))
  }

  /** Where a relative reference points, as a normalised path. */
  function Resolve(itemPath: string, reference: string): string
  {
    NormPath(JoinPath(Dirname(itemPath), reference))
  }

  /** "Lies under the content root" is a plain string-prefix test. */
  predicate UnderRoot(itemPath: string, reference: string)
  {
    StartsWith(Resolve(itemPath, reference), ContentRoot(itemPath))
  }

  /** The path of a reference relative to the content root. */
  function RelativeToRoot(itemPath: string, reference: string, cwd: string): string
  {
    RelPath(Resolve(itemPath, reference), ContentRoot(itemPath), cwd)
  }

  /** The site URL of a file under the content root: `/assets/` and its
      path relative to the root, with backslashes turned into slashes. */
  function AssetUrl(itemPath: string, reference: string, cwd: string): (r: string)
    ensures StartsWith(r, "/assets/") && '\\' !in r
  {
    AssetUrlOf(RelativeToRoot(itemPath, reference, cwd))
  }

  function AssetUrlOf(rel: string): (r: string)
    ensures StartsWith(r, "/assets/") && '\\' !in r
  {
    var path := ReplaceChar(rel, '\\', '/');
    assert '\\' !in path;
    assert ("/assets/" + path)[..8] == "/assets/";
    "/assets/" + path
  }

  /** The page URL of a Markdown file under the content root: its path
      relative to the root, extension dropped, `.html` added. */
  function PageUrl(itemPath: string, reference: string, cwd: string): (r: string)
    ensures StartsWith(r, "/") && EndsWith(r, ".html") && '\\' !in r
  {
    PageUrlOf(RelativeToRoot(itemPath, reference, cwd))
  }

  function PageUrlOf(rel: string): (r: string)
    ensures StartsWith(r, "/") && EndsWith(r, ".html") && '\\' !in r
  {
    var base := ReplaceChar(SplitExt(rel).0, '\\', '/');
    assert '\\' !in base;
    var r := "/" + base + ".html";
    assert r[|r| - 5..] == ".html";
    r
  }

  /** `AssetProcessor._adjust_asset_path` */
  function AdjustAssetPath(itemPath: string, src: string, cwd: string): (r: string)
    ensures AbsoluteSource(src) ==> r == src
    ensures !AbsoluteSource(src) && UnderRoot(itemPath, src) ==> r == AssetUrl(itemPath, src, cwd)
    ensures !UnderRoot(itemPath, src) ==> r == src
  {
    if AbsoluteSource(src) then src
    else if UnderRoot(itemPath, src) then AssetUrl(itemPath, src, cwd)
    else src
  }

  /** `AssetProcessor._adjust_link_path`: Markdown targets become page URLs,
      anything else is handled as an asset. */
  function AdjustLinkPath(itemPath: string, href: string, cwd: string): (r: string)
  {
    if AbsoluteTarget(href) then href
    else if EndsWith(Resolve(itemPath, href), ".md") && UnderRoot(itemPath, href) then
      PageUrl(itemPath, href, cwd)
    else AdjustAssetPath(itemPath, href, cwd)
  }

  lemma LinkPassesThrough(itemPath: string, href: string, cwd: string)
    requires AbsoluteTarget(href)
    ensures AdjustLinkPath(itemPath, href, cwd) == href
  {
  }

  /** A relative link to a Markdown file under the root becomes its page URL. */
  lemma MarkdownLinkBecomesPage(itemPath: string, href: string, cwd: string)
    requires !AbsoluteTarget(href) && EndsWith(Resolve(itemPath, href), ".md") && UnderRoot(itemPath, href)
    ensures AdjustLinkPath(itemPath, href, cwd) == PageUrl(itemPath, href, cwd)
  {
  }

  /** Any other relative link under the root becomes an asset URL. */
  lemma OtherLinkBecomesAsset(itemPath: string, href: string, cwd: string)
    requires !AbsoluteTarget(href) && !EndsWith(Resolve(itemPath, href), ".md") && UnderRoot(itemPath, href)
    ensures AdjustLinkPath(itemPath, href, cwd) == AssetUrl(itemPath, href, cwd)
  {
  }

  /** A link resolving outside the root is returned exactly as written, even
      when it names a Markdown file. */
  lemma LinkOutsideRootUnchanged(itemPath: string, href: string, cwd: string)
    requires !UnderRoot(itemPath, href)
    ensures AdjustLinkPath(itemPath, href, cwd) == href
  {
  }

  /** Every rewritten link is a page URL or an asset URL, and a link to a
      Markdown file never turns into an asset URL. */
  lemma LinkOutcomes(itemPath: string, href: string, cwd: string)
    ensures var r := AdjustLinkPath(itemPath, href, cwd);
      || r == href
      || (r == PageUrl(itemPath, href, cwd) && EndsWith(Resolve(itemPath, href), ".md"))
      || (r == AssetUrl(itemPath, href, cwd) && !EndsWith(Resolve(itemPath, href), ".md"))
  {
    if AbsoluteTarget(href) {
      LinkPassesThrough(itemPath, href, cwd);
    } else if !UnderRoot(itemPath, href) {
      LinkOutsideRootUnchanged(itemPath, href, cwd);
    } else if EndsWith(Resolve(itemPath, href), ".md") {
      MarkdownLinkBecomesPage(itemPath, href, cwd);
    } else {
      OtherLinkBecomesAsset(itemPath, href, cwd);
    }
  }

  // ---------------------------------------------------------------------------
  // The tree pass

  /** An element of the converted document; the pass rewrites its attributes
      in place. */
  class Element {
    const tag: string
    var attrib: map<string, string>

    constructor (tag: string, attrib: map<string, string>)
      ensures this.tag == tag && this.attrib == attrib
    {
      this.tag := tag;
      this.attrib := attrib;
    }
  }

  /** What the pass leaves in an element's attributes when it rewrites image
      sources with `asset` and link targets with `link`. */
  function RewriteWith(tag: string, attrib: map<string, string>, asset: string -> string, link: string -> string): map<string, string>
  {
    if tag == "img" && "src" in attrib then attrib["src" := asset(attrib["src"])]
    else if tag == "a" && "href" in attrib then attrib["href" := link(attrib["href"])]
    else attrib
  }

  /** The processor's two adjusters, bound to the item being converted. */
  function AssetAdjuster(itemPath: string, cwd: string): string -> string
  {
    src => AdjustAssetPath(itemPath, src, cwd)
  }

  function LinkAdjuster(itemPath: string, cwd: string): string -> string
  {
    href => AdjustLinkPath(itemPath, href, cwd)
  }

  /** What `AssetProcessor.run` leaves in an element's attributes: an image's
      `src` and a link's `href` rewritten, everything else as it was. */
  function Rewritten(tag: string, attrib: map<string, string>, itemPath: string, cwd: string): (r: map<string, string>)
    ensures r.Keys == attrib.Keys
    ensures forall k :: k in attrib && !(tag == "img" && k == "src") && !(tag == "a" && k == "href") ==> r[k] == attrib[k]
    ensures tag == "img" && "src" in attrib ==> r["src"] == AdjustAssetPath(itemPath, attrib["src"], cwd)
    ensures tag == "a" && "href" in attrib ==> r["href"] == AdjustLinkPath(itemPath, attrib["href"], cwd)
  {
    RewriteWith(tag, attrib, AssetAdjuster(itemPath, cwd), LinkAdjuster(itemPath, cwd))
  }

  /** `AssetProcessor.run`: every image, then every link, rewritten in place.
      `elements` are the root's descendants, each one once. */
  method Run(elements: seq<Element>, itemPath: string, cwd: string)
    requires forall i, j :: 0 <= i < j < |elements| ==> elements[i] != elements[j]
    modifies set e | e in elements
    ensures forall e :: e in elements ==> e.attrib == Rewritten(e.tag, old(e.attrib), itemPath, cwd)
  {
    RewriteTree(elements, AssetAdjuster(itemPath, cwd), LinkAdjuster(itemPath, cwd));
  }

  /** The two loops of `run`, for any pair of adjusters. */
  method RewriteTree(elements: seq<Element>, asset: string -> string, link: string -> string)
    requires forall i, j :: 0 <= i < j < |elements| ==> elements[i] != elements[j]
    modifies set e | e in elements
    ensures forall e :: e in elements ==> e.attrib == RewriteWith(e.tag, old(e.attrib), asset, link)
  {
    RewriteAll(elements, "img", "src", asset);
    RewriteAll(elements, "a", "href", link);
  }

  /** `attrib` with its `key` entry, if any, passed through `f`. */
  function RewriteKey(attrib: map<string, string>, key: string, f: string -> string): map<string, string>
  {
    if key in attrib then attrib[key := f(attrib[key])] else attrib
  }

  /** One loop of `run`: every element with the tag, in document order,
      gets the attribute rewritten if it has it. */
  method RewriteAll(elements: seq<Element>, tag: string, key: string, f: string -> string)
    requires forall i, j :: 0 <= i < j < |elements| ==> elements[i] != elements[j]
    modifies set e | e in elements
    ensures forall k :: 0 <= k < |elements| ==>
      elements[k].attrib == if elements[k].tag == tag then RewriteKey(old(elements[k].attrib), key, f) else old(elements[k].attrib)
  {
    for i := 0 to |elements|
      invariant forall k :: i <= k < |elements| ==> elements[k].attrib == old(elements[k].attrib)
      invariant forall k :: 0 <= k < i ==>
        elements[k].attrib == if elements[k].tag == tag then RewriteKey(old(elements[k].attrib), key, f) else old(elements[k].attrib)
    {
      var e := elements[i];
      if e.tag == tag && key in e.attrib {
        e.attrib := e.attrib[key := f(e.attrib[key])];
      }
    }
  }
}
