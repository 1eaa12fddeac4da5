/** `render_template` and `process_includes`: the fallback page a failed
    rendering produces, and the globals that the Markdown files of
    `_includes` add to the template environment. Jinja itself, the file
    system and the libraries behind `parse_markdown_content` are
    parameters. */
module Templates {
  import opened Text
  import opened Values
  import opened Items
  import opened Paths
  import opened Markdown

  // ---------------------------------------------------------------------------
  // render_template

  const ErrorPrefix := "<h1>Error rendering template</h1><p>"
  const ErrorSuffix := "</p>"

  /** `render_template(env, name, context)`. `render` stands for looking the
      template up and rendering it, giving the text or the message of the
      exception raised; a failure becomes a small error page. */
  function RenderTemplate<C>(name: string, context: C, render: (string, C) -> Result<string>): (r: string)
  {
    match render(name, context)
    case Ok(html) => html
    case Failure(e) => ErrorPrefix + e + ErrorSuffix
  }

  /** A rendering that raises never escapes: the page names the error, and
      the message can be read back out of it. */
  lemma RenderFailureShown<C>(name: string, context: C, render: (string, C) -> Result<string>)
    requires render(name, context).Failure?
    ensures var r := RenderTemplate(name, context, render);
      && StartsWith(r, ErrorPrefix) && EndsWith(r, ErrorSuffix)
      && r[|ErrorPrefix|..|r| - |ErrorSuffix|] == render(name, context).error
  {
    var r := RenderTemplate(name, context, render);
    var e := render(name, context).error;
    assert r == ErrorPrefix + e + ErrorSuffix;
    assert r[..|ErrorPrefix|] == ErrorPrefix;
    assert r[|r| - |ErrorSuffix|..] == ErrorSuffix;
    assert r[|ErrorPrefix|..|r| - |ErrorSuffix|] == e;
  }

  // ---------------------------------------------------------------------------
  // process_includes

  /** The names the includes loop takes: ending in `.md` (case matters here,
      unlike the section filter) and not hidden. */
  predicate IncludeName(name: string)
  {
    EndsWith(name, ".md") && !StartsWith(name, ".")
  }

  /** `f"include_{stem}_{key}"` */
  function MetaKey(stem: string, key: string): string
  {
    "include_" + stem + "_" + key
  }

  /** `stem + '_html'` */
  function HtmlKey(stem: string): string
  {
    stem + "_html"
  }

  /** Distinct metadata keys of one include land under distinct keys. */
  lemma MetaKeysDistinct(stem: string)
    ensures forall k1, k2 :: MetaKey(stem, k1) == MetaKey(stem, k2) ==> k1 == k2
  {
    forall k1, k2 | MetaKey(stem, k1) == MetaKey(stem, k2)
      ensures k1 == k2
    {
      var n := |"include_" + stem + "_"|;
      assert k1 == MetaKey(stem, k1)[n..];
      assert k2 == MetaKey(stem, k2)[n..];
    }
  }

  /** An include's metadata key never collides with its own HTML key. */
  lemma MetaKeyNotHtmlKey(stem: string, key: string)
    ensures MetaKey(stem, key) != HtmlKey(stem)
  {
    assert |MetaKey(stem, key)| == 9 + |stem| + |key|;
  }

  /** What one include adds: each metadata entry under its prefixed key,
      then the HTML under `<stem>_html`. */
  function IncludeEntries(stem: string, metadata: Metadata, html: string): (r: map<string, Value>)
    ensures forall k :: k in metadata ==> MetaKey(stem, k) in r && r[MetaKey(stem, k)] == metadata[k]
    ensures HtmlKey(stem) in r && r[HtmlKey(stem)] == Str(html)
    ensures forall key :: key in r ==> key == HtmlKey(stem) || exists k :: k in metadata && key == MetaKey(stem, k)
  {
    MetaKeysDistinct(stem);
    var entries := map k | k in metadata :: MetaKey(stem, k) := metadata[k];
    entries[HtmlKey(stem) := Str(html)]
  }

  /** The include a file contributes: `None` unless it is a file, can be
      read, and parses. `read` stands for opening and reading the file,
      `None` where that raises; `loads` and `markdown` are the libraries
      behind `parse_markdown_content`. */
  function IncludeOf(dir: string, name: string, isFile: string -> bool, read: string -> Option<string>,
                     loads: string -> Option<(Metadata, string)>,
                     markdown: (string, Option<string>) -> Option<string>): Option<(Metadata, string)>
  {
    var path := JoinPath(dir, name);
    if !(IncludeName(name) && isFile(path)) then None
    else
      match read(path)
      case None => None
      case Some(content) => ParseMarkdownContent(content, Some(path), loads, markdown)
  }

  /** `key` is one the `i`-th name of the listing writes. */
  predicate KeyFrom(key: string, dir: string, names: seq<string>, i: int, isFile: string -> bool,
                    read: string -> Option<string>, loads: string -> Option<(Metadata, string)>,
                    markdown: (string, Option<string>) -> Option<string>)
  {
    && 0 <= i < |names| && IncludeName(names[i])
    && IncludeOf(dir, names[i], isFile, read, loads, markdown).Some?
    && var stem := SplitExt(names[i]).0;
       key == HtmlKey(stem) || exists k :: k in IncludeOf(dir, names[i], isFile, read, loads, markdown).value.0 && key == MetaKey(stem, k)
  }

  /** What the include called `name` adds to the dict. */
  function AddedBy(dir: string, name: string, isFile: string -> bool, read: string -> Option<string>,
                   loads: string -> Option<(Metadata, string)>,
                   markdown: (string, Option<string>) -> Option<string>): map<string, Value>
  {
    match IncludeOf(dir, name, isFile, read, loads, markdown)
    case None => map[]
    case Some((metadata, html)) => IncludeEntries(SplitExt(name).0, metadata, html)
  }

  /** The dict the loop builds from the listing `names`, in order; a later
      include overwrites what an earlier one wrote under the same key. */
  function IncludeContext(dir: string, names: seq<string>, isFile: string -> bool, read: string -> Option<string>,
                          loads: string -> Option<(Metadata, string)>,
                          markdown: (string, Option<string>) -> Option<string>): map<string, Value>
    decreases |names|
  {
    if names == [] then map[]
    else
      IncludeContext(dir, names[..|names| - 1], isFile, read, loads, markdown)
        + AddedBy(dir, names[|names| - 1], isFile, read, loads, markdown)
  }

  /** Every key of the dict is one some include of the listing writes. */
  lemma {:induction false} IncludeContextKeys(dir: string, names: seq<string>, isFile: string -> bool,
                                              read: string -> Option<string>,
                                              loads: string -> Option<(Metadata, string)>,
                                              markdown: (string, Option<string>) -> Option<string>)
    ensures forall key :: key in IncludeContext(dir, names, isFile, read, loads, markdown) ==>
      exists i :: KeyFrom(key, dir, names, i, isFile, read, loads, markdown)
    decreases |names|
  {
    if names != [] {
      var init := names[..|names| - 1];
      IncludeContextKeys(dir, init, isFile, read, loads, markdown);
      ExtendKeys(dir, init, names, IncludeContext(dir, init, isFile, read, loads, markdown),
                 AddedBy(dir, names[|names| - 1], isFile, read, loads, markdown), isFile, read, loads, markdown);
    }
  }

  lemma ExtendKeys(dir: string, init: seq<string>, names: seq<string>, prev: map<string, Value>, added: map<string, Value>,
                   isFile: string -> bool, read: string -> Option<string>,
                   loads: string -> Option<(Metadata, string)>, markdown: (string, Option<string>) -> Option<string>)
    requires names != [] && init == names[..|names| - 1]
    requires forall key :: key in prev ==> exists i :: KeyFrom(key, dir, init, i, isFile, read, loads, markdown)
    requires added != map[] ==> IncludeOf(dir, names[|names| - 1], isFile, read, loads, markdown).Some?
    requires IncludeOf(dir, names[|names| - 1], isFile, read, loads, markdown).Some? ==>
      var (metadata, html) := IncludeOf(dir, names[|names| - 1], isFile, read, loads, markdown).value;
      added == IncludeEntries(SplitExt(names[|names| - 1]).0, metadata, html)
    ensures forall key :: key in prev + added ==> exists i :: KeyFrom(key, dir, names, i, isFile, read, loads, markdown)
  {
    var n := |names| - 1;
    forall key | key in prev + added
      ensures exists i :: KeyFrom(key, dir, names, i, isFile, read, loads, markdown)
    {
      if key in added {
        assert KeyFrom(key, dir, names, n, isFile, read, loads, markdown);
      } else {
        var i :| KeyFrom(key, dir, init, i, isFile, read, loads, markdown);
        assert init[i] == names[i];
        assert KeyFrom(key, dir, names, i, isFile, read, loads, markdown);
      }
    }
  }

  /** The last include in the listing wins: its entries are found under its
      keys whatever came before. */
  lemma LastIncludeWins(dir: string, names: seq<string>, isFile: string -> bool, read: string -> Option<string>,
                        loads: string -> Option<(Metadata, string)>,
                        markdown: (string, Option<string>) -> Option<string>)
    requires names != []
    requires IncludeOf(dir, names[|names| - 1], isFile, read, loads, markdown).Some?
    ensures var (metadata, html) := IncludeOf(dir, names[|names| - 1], isFile, read, loads, markdown).value;
      var stem := SplitExt(names[|names| - 1]).0;
      var r := IncludeContext(dir, names, isFile, read, loads, markdown);
      && HtmlKey(stem) in r && r[HtmlKey(stem)] == Str(html)
      && forall k :: k in metadata ==> MetaKey(stem, k) in r && r[MetaKey(stem, k)] == metadata[k]
  {
  }

  /** A name the filter refuses adds nothing, whatever the file holds. */
  lemma RefusedNameAddsNothing(dir: string, names: seq<string>, name: string, isFile: string -> bool,
                               read: string -> Option<string>, loads: string -> Option<(Metadata, string)>,
                               markdown: (string, Option<string>) -> Option<string>)
    requires !IncludeName(name)
    ensures IncludeContext(dir, names + [name], isFile, read, loads, markdown) == IncludeContext(dir, names, isFile, read, loads, markdown)
  {
    assert (names + [name])[..|names|] == names;
  }

  lemma IncludeContextStep(dir: string, names: seq<string>, i: nat, isFile: string -> bool,
                           read: string -> Option<string>, loads: string -> Option<(Metadata, string)>,
                           markdown: (string, Option<string>) -> Option<string>)
    requires i < |names|
    ensures IncludeContext(dir, names[..i + 1], isFile, read, loads, markdown)
      == IncludeContext(dir, names[..i], isFile, read, loads, markdown) + AddedBy(dir, names[i], isFile, read, loads, markdown)
  {
    assert names[..i + 1][..i] == names[..i];
  }

  /** The loop over `os.listdir(includes_dir)`. */
  method CollectIncludes(includesDir: string, names: seq<string>, isFile: string -> bool,
                         read: string -> Option<string>, loads: string -> Option<(Metadata, string)>,
                         markdown: (string, Option<string>) -> Option<string>)
    returns (globalContext: map<string, Value>)
    ensures globalContext == IncludeContext(includesDir, names, isFile, read, loads, markdown)
  {
    globalContext := map[];
    var i := 0;
    while i < |names|
      invariant 0 <= i <= |names|
      invariant globalContext == IncludeContext(includesDir, names[..i], isFile, read, loads, markdown)
    {
      IncludeContextStep(includesDir, names, i, isFile, read, loads, markdown);
      var includeFile := names[i];
      var includePath := JoinPath(includesDir, includeFile);
      var added := map[];
      if IncludeName(includeFile) && isFile(includePath) {
        var content := read(includePath);
        if content.Some? {
          var parsed := ParseMarkdownContent(content.value, Some(includePath), loads, markdown);
          if parsed.Some? {
            added := IncludeEntries(SplitExt(includeFile).0, parsed.value.0, parsed.value.1);
          }
        }
      }
      assert added == AddedBy(includesDir, includeFile, isFile, read, loads, markdown);
      globalContext := globalContext + added;
      i := i + 1;
    }
    assert names[..|names|] == names;
  }

  /** An object in the template globals: data the pipeline put there, or one
      of the objects `setup_jinja_env` adds, which the core never looks into. */
  datatype Global = Data(value: Value) | Library(name: string)

  function AsGlobals(context: map<string, Value>): (r: map<string, Global>)
    ensures r.Keys == context.Keys
    ensures forall k :: k in context ==> r[k] == Data(context[k])
  {
    map k | k in context :: Data(context[k])
  }

  /** Jinja's `DEFAULT_NAMESPACE`: the globals every new `Environment`
      starts with. */
  const DefaultNamespace: map<string, Global> := map[
    "range" := Library("range"),
    "dict" := Library("dict"),
    "lipsum" := Library("generate_lorem_ipsum"),
    "cycler" := Library("Cycler"),
    "joiner" := Library("Joiner"),
    "namespace" := Library("Namespace")]

  /** The Jinja environment, as far as its globals go. */
  class TemplateEnv {
    var globals: map<string, Global>

    /** `setup_jinja_env`: Jinja's default globals, then the configuration
        and `datetime.datetime.now`. */
    constructor ()
      ensures globals == DefaultNamespace["config" := Library("config")]["now" := Library("datetime.datetime.now")]
      ensures globals.Keys == {"range", "dict", "lipsum", "cycler", "joiner", "namespace", "config", "now"}
    {
      var g := DefaultNamespace;
      g := g["config" := Library("config")];
      globals := g["now" := Library("datetime.datetime.now")];
    }

    /** `process_includes(config, jinja_env)`: builds the dict from the
        `_includes` directory under `contentDir` (nothing when `dirExists`
        is false), adds it to the globals and returns it. */
    method ProcessIncludes(contentDir: string, dirExists: bool, names: seq<string>, isFile: string -> bool,
                           read: string -> Option<string>, loads: string -> Option<(Metadata, string)>,
                           markdown: (string, Option<string>) -> Option<string>)
      returns (globalContext: map<string, Value>)
      modifies this
      ensures !dirExists ==> globalContext == map[]
      ensures dirExists ==> globalContext == IncludeContext(JoinPath(contentDir, "_includes"), names, isFile, read, loads, markdown)
      ensures globals == old(globals) + AsGlobals(globalContext)
    {
      globalContext := map[];
      if dirExists {
        globalContext := CollectIncludes(JoinPath(contentDir, "_includes"), names, isFile, read, loads, markdown);
      }
      globals := globals + AsGlobals(globalContext);
    }
  }
}
