/** The records the pipeline passes around: parsed files, content items,
    section and site configuration, and the context shortcodes see. */
module Items {
  import opened Text
  import opened Values

  /** Front matter after YAML parsing: keys to values. */
  type Metadata = map<string, Value>

  /** `metadata.get(key)`: the value, or `None` when the key is absent. */
  function Get(m: Metadata, key: string): Value
  {
    if key in m then m[key] else Null
  }

  /** The dict `parse_markdown_file` returns. */
  datatype ParsedFile = ParsedFile(metadata: Metadata, contentHtml: string, filepath: string, slug: string)

  /** A content item: a parsed file with its `url` and `section_key` added.
      The items the portfolio's include script writes carry no `filepath`. */
  datatype ContentItem = ContentItem(
    metadata: Metadata,
    contentHtml: string,
    filepath: Option<string>,
    slug: string,
    url: string,
    sectionKey: string)

  /** One entry of the `SECTIONS` setting: a dict of settings, or a value
      of some other type. */
  datatype SectionConfig = Settings(entries: map<string, Value>) | NotADict

  /** An ordered dict of sections, as the configuration lists them. */
  type Sections = seq<(string, SectionConfig)>

  /** The configuration module, as far as the core reads it. `sections` and
      `upperSections` are the `sections` and `SECTIONS` attributes, `None`
      where the module has no such attribute. */
  datatype SiteConfig = SiteConfig(
    siteName: string,
    siteDescription: string,
    contentDir: string,
    sections: Option<Sections>,
    upperSections: Option<Sections>)

  /** The context dict shortcodes receive: `latest_items` and `config`
      where present. */
  datatype ShortcodeContext = ShortcodeContext(latestItems: Option<seq<ContentItem>>, config: Option<SiteConfig>)
}
