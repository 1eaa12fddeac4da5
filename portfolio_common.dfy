/** What the portfolio example's scripts have in common: front matter read
    with `content.split('---', 2)` and a `key: value` line parser instead of
    YAML, `int()` of an item's `order` (999 when missing), and the stable
    sort by that number. */
module PortfolioCommon {
  import opened Text
  import opened Values
  import opened Sorting
  import opened Paths

  /** One entry of `latest_items.json`, as the include script writes it. */
  datatype ItemRecord = ItemRecord(url: string, slug: string, sectionKey: string,
                                   metadata: map<string, Value>, contentHtml: string)

  /** A file a `glob('*.md')` yields: its name and its text. */
  datatype SourceFile = SourceFile(name: string, content: string)

  /** `f"/projects/{md_file.stem}.html"` */
  function ProjectUrl(f: SourceFile): string
  {
    "/projects/" + Stem(f.name) + ".html"
  }

  /** The list a loop over `xs` builds when each element adds one entry
      or raises: the entries in order, or the error of the first element
      that raises. */
  function Each<T, U>(xs: seq<T>, f: T -> Result<U>): (r: Result<seq<U>>)
    ensures r.Ok? <==> forall j :: 0 <= j < |xs| ==> f(xs[j]).Ok?
    ensures r.Ok? ==> |r.value| == |xs| && forall j :: 0 <= j < |xs| ==> f(xs[j]) == Ok(r.value[j])
    decreases |xs|
  {
    if xs == [] then Ok([])
    else
      var init := xs[..|xs| - 1];
      assert forall j :: 0 <= j < |init| ==> init[j] == xs[j];
      match Each(init, f)
      case Failure(e) => Failure(e)
      case Ok(prev) =>
        match f(xs[|xs| - 1])
        case Failure(e) => Failure(e)
        case Ok(y) => Ok(prev + [y])
  }

  /** When the element at `i` is the first that raises, its error is the
      list's error. */
  lemma {:induction false} EachFirstFailure<T, U>(xs: seq<T>, f: T -> Result<U>, i: nat)
    requires i < |xs| && Each(xs[..i], f).Ok? && f(xs[i]).Failure?
    ensures Each(xs, f) == Failure(f(xs[i]).error)
    decreases |xs|
  {
    assert xs[..i + 1][..i] == xs[..i];
    if |xs| > i + 1 {
      var init := xs[..|xs| - 1];
      assert init[..i] == xs[..i] && init[i] == xs[i];
      EachFirstFailure(init, f, i);
    } else {
      assert xs[..i] == xs[..|xs| - 1];
    }
  }

  /** `int(p.get("metadata", {}).get("order", 999))` */
  function RecordOrder(r: ItemRecord): Result<int>
  {
    OrderOf(r.metadata)
  }

  // ---------------------------------------------------------------------------
  // content.split('---', 2)

  /** `s.split('---', 2)`: cut at the first two non-overlapping occurrences
      of `---`. */
  function SplitDashes(s: string): (parts: seq<string>)
    ensures 1 <= |parts| <= 3
    ensures |parts| == 1 ==> parts[0] == s
    ensures |parts| == 2 ==> s == parts[0] + "---" + parts[1]
    ensures |parts| == 3 ==> s == parts[0] + "---" + parts[1] + "---" + parts[2]
    ensures StartsWith(s, "---") ==> |parts| >= 2 && parts[0] == []
  {
    match Find(s, "---", 0)
    case None => [s]
    case Some(i) =>
      CutAt(s, "---", i);
      assert StartsWith(s, "---") ==> OccursAt(s, "---", 0);
      match Find(s, "---", i + 3)
      case None => [s[..i], s[i + 3..]]
      case Some(j) =>
        CutAt(s, "---", j);
        CutBetween(s, "---", i, j);
        [s[..i], s[i + 3..j], s[j + 3..]]
  }

  lemma CutAt(s: string, pat: string, i: nat)
    requires OccursAt(s, pat, i)
    ensures s == s[..i] + pat + s[i + |pat|..]
  {
  }

  lemma CutBetween(s: string, pat: string, i: nat, j: nat)
    requires OccursAt(s, pat, i) && OccursAt(s, pat, j) && i + |pat| <= j
    ensures s == s[..i] + pat + s[i + |pat|..j] + pat + s[j + |pat|..]
  {
    CutAt(s, pat, i);
    CutAt(s, pat, j);
    assert s[..j] == s[..i] + pat + s[i + |pat|..j];
  }

  // ---------------------------------------------------------------------------
  // The key: value line parser

  /** `frontmatter.strip().split('\n')` */
  function Lines(frontMatter: string): seq<string>
  {
    Split(Strip(frontMatter), '\n')
  }

  /** The value stored for a line's text after the first `:`: stripped, and,
      when `coerce` is set, `True`/`False` for `true`/`false` in any case. */
  function LineValue(text: string, coerce: bool): (r: Value)
    ensures r.Str? || r.Bool?
    ensures !coerce ==> r == Str(Strip(text))
  {
    var t := Strip(text);
    if coerce && Lower(t) == "true" then Bool(true)
    else if coerce && Lower(t) == "false" then Bool(false)
    else Str(t)
  }

  /** The entry one line contributes: the stripped text before the first `:`
      and the value after it; a line without `:` contributes nothing. */
  function LineEntry(line: string, coerce: bool): Option<(string, Value)>
  {
    if ':' in line then
      var (key, value) := SplitOnce(line, ':');
      Some((Strip(key), LineValue(value, coerce)))
    else None
  }

  /** The dict the loop builds from the lines, a later line overwriting an
      earlier one with the same key. */
  function LinesMetadata(lines: seq<string>, coerce: bool): map<string, Value>
    decreases |lines|
  {
    if lines == [] then map[]
    else
      var prev := LinesMetadata(lines[..|lines| - 1], coerce);
      match LineEntry(lines[|lines| - 1], coerce)
      case None => prev
      case Some((key, value)) => prev[key := value]
  }

  /** The value of the last line whose key is `key`. */
  function LastEntry(lines: seq<string>, key: string, coerce: bool): Option<Value>
    decreases |lines|
  {
    if lines == [] then None
    else
      var e := LineEntry(lines[|lines| - 1], coerce);
      if e.Some? && e.value.0 == key then Some(e.value.1)
      else LastEntry(lines[..|lines| - 1], key, coerce)
  }

  /** A key maps to the value on the last line that names it, and is
      missing when no line names it. */
  lemma {:induction false} LinesMetadataLastWins(lines: seq<string>, key: string, coerce: bool)
    ensures var m := LinesMetadata(lines, coerce);
      (key in m <==> LastEntry(lines, key, coerce).Some?)
      && (key in m ==> m[key] == LastEntry(lines, key, coerce).value)
    decreases |lines|
  {
    if lines != [] {
      var init := lines[..|lines| - 1];
      var e := LineEntry(lines[|lines| - 1], coerce);
      LinesMetadataLastWins(init, key, coerce);
      assert LinesMetadata(lines, coerce) == if e.None? then LinesMetadata(init, coerce) else LinesMetadata(init, coerce)[e.value.0 := e.value.1];
      assert LastEntry(lines, key, coerce) == if e.Some? && e.value.0 == key then Some(e.value.1) else LastEntry(init, key, coerce);
    }
  }

  lemma StripSpaceBefore(v: string)
    requires v == [] || (!IsSpace(v[0]) && !IsSpace(v[|v| - 1]))
    ensures Strip(" " + v) == v
  {
    var s := " " + v;
    assert s[1..] == v;
    assert LStrip(s) == LStrip(v) == v;
  }

  /** A line written as `key: value` parses back to that entry. */
  lemma LineRoundTrip(key: string, value: string)
    requires key != [] && ':' !in key && !IsSpace(key[0]) && !IsSpace(key[|key| - 1])
    requires value == [] || (!IsSpace(value[0]) && !IsSpace(value[|value| - 1]))
    ensures LineEntry(key + ": " + value, false) == Some((key, Str(value)))
  {
    var line := key + ": " + value;
    assert line == key + [':'] + (" " + value);
    assert line[..|key|] == key;
    FirstIndexOfAt(line, ':', |key|);
    assert SplitOnce(line, ':') == (key, " " + value) by {
      assert line[|key| + 1..] == " " + value;
    }
    StripNoEdges(key);
    StripSpaceBefore(value);
  }

  /** Coercion changes only the value of an entry, and only when its
      stripped text is `true` or `false` in some case. */
  lemma CoercionChangesOnlyValue(line: string)
    ensures LineEntry(line, true).Some? <==> LineEntry(line, false).Some?
    ensures LineEntry(line, false).Some? ==>
      var (key, plain) := LineEntry(line, false).value;
      && plain.Str?
      && LineEntry(line, true).value.0 == key
      && LineEntry(line, true).value.1 ==
           (if Lower(plain.s) == "true" then Bool(true) else if Lower(plain.s) == "false" then Bool(false) else plain)
  {
  }

  /** `True` after the colon of a line becomes the boolean `True`. */
  lemma TrueCoerced()
    ensures LineValue(" True", true) == Bool(true)
  {
    StripSpaceBefore("True");
    LowerIs("True", "true");
  }

  /** `FALSE` becomes `False`. */
  lemma FalseCoerced()
    ensures LineValue(" FALSE", true) == Bool(false)
  {
    StripSpaceBefore("FALSE");
    LowerIs("FALSE", "false");
  }

  /** Any other word stays a string. */
  lemma OtherWordKept()
    ensures LineValue(" yes", true) == Str("yes")
  {
    StripSpaceBefore("yes");
    LowerIs("yes", "yes");
  }

  lemma LowerIs(s: string, t: string)
    requires |s| == |t| && forall i :: 0 <= i < |s| ==> LowerChar(s[i]) == t[i]
    ensures Lower(s) == t
  {
  }

  method ParseLines(lines: seq<string>, coerce: bool) returns (metadata: map<string, Value>)
    ensures metadata == LinesMetadata(lines, coerce)
  {
    metadata := map[];
    var i := 0;
    while i < |lines|
      invariant 0 <= i <= |lines|
      invariant metadata == LinesMetadata(lines[..i], coerce)
    {
      var line := lines[i];
      LinesMetadataStep(lines, i, coerce);
      if ':' in line {
        var (key, value) := SplitOnce(line, ':');
        metadata := metadata[Strip(key) := LineValue(value, coerce)];
      }
      i := i + 1;
    }
    assert lines[..|lines|] == lines;
  }

  /** One more line updates the metadata of the lines before it. */
  lemma LinesMetadataStep(lines: seq<string>, i: nat, coerce: bool)
    requires i < |lines|
    ensures LinesMetadata(lines[..i + 1], coerce) ==
      if ':' in lines[i] then
        LinesMetadata(lines[..i], coerce)[Strip(SplitOnce(lines[i], ':').0) := LineValue(SplitOnce(lines[i], ':').1, coerce)]
      else LinesMetadata(lines[..i], coerce)
  {
    assert lines[..i + 1][..i] == lines[..i];
  }

  const UnpackError := "not enough values to unpack (expected 3, got 2)"

  /** The metadata of a file's text: nothing unless it starts with `---`;
      otherwise the lines between the first two `---`, and a `ValueError`
      from the unpacking when there is no second `---`. */
  function FrontMatterOf(content: string, coerce: bool): Result<map<string, Value>>
  {
    if !StartsWith(content, "---") then Ok(map[])
    else
      var parts := SplitDashes(content);
      if |parts| != 3 then Failure(UnpackError)
      else Ok(LinesMetadata(Lines(parts[1]), coerce))
  }

  method ReadFrontMatter(content: string, coerce: bool) returns (r: Result<map<string, Value>>)
    ensures r == FrontMatterOf(content, coerce)
  {
    if !StartsWith(content, "---") {
      return Ok(map[]);
    }
    var parts := SplitDashes(content);
    if |parts| != 3 {
      return Failure(UnpackError);
    }
    var metadata := ParseLines(Lines(parts[1]), coerce);
    r := Ok(metadata);
  }

  // ---------------------------------------------------------------------------
  // int(order) and the sort by it

  /** `int(v)`: `Ok` with the number, or the message of the exception. */
  function IntOf(v: Value): (r: Result<int>)
    ensures v.Int? ==> r == Ok(v.i)
    ensures v.Str? ==> (r.Ok? <==> PyInt(v.s).Some?)
  {
    match v
    case Int(i) => Ok(i)
    case Bool(b) => Ok(if b then 1 else 0)
    case Str(s) =>
      (match PyInt(s)
       case Some(i) => Ok(i)
       case None => Failure(IntValueErrorMessage(s)))
    case _ => Failure("int() argument must be a string, a bytes-like object or a real number, not '" + TypeName(v) + "'")
  }

  /** `int(metadata.get("order", 999))` */
  function OrderOf(metadata: map<string, Value>): (r: Result<int>)
    ensures "order" !in metadata ==> r == Ok(999)
  {
    IntOf(if "order" in metadata then metadata["order"] else Int(999))
  }

  /** The keys `list.sort(key=...)` computes, in list order, or the error of
      the first one that raises. */
  function KeysOf<T>(xs: seq<T>, key: T -> Result<int>): (r: Result<seq<int>>)
    ensures r.Ok? ==> |r.value| == |xs| && forall i :: 0 <= i < |xs| ==> key(xs[i]) == Ok(r.value[i])
    ensures r.Failure? ==> exists i :: 0 <= i < |xs| && key(xs[i]) == Failure(r.error) && forall j :: 0 <= j < i ==> key(xs[j]).Ok?
    decreases |xs|
  {
    if xs == [] then Ok([])
    else
      match key(xs[0])
      case Failure(e) => Failure(e)
      case Ok(k) =>
        match KeysOf(xs[1..], key)
        case Failure(e) =>
          var i :| 0 <= i < |xs[1..]| && key(xs[1..][i]) == Failure(e) && forall j :: 0 <= j < i ==> key(xs[1..][j]).Ok?;
          assert key(xs[i + 1]) == Failure(e);
          Failure(e)
        case Ok(rest) => Ok([k] + rest)
  }

  function IntValues(keys: seq<int>): (r: seq<Value>)
    ensures |r| == |keys| && forall i :: 0 <= i < |keys| ==> r[i] == Int(keys[i])
  {
    seq(|keys|, i requires 0 <= i < |keys| => Int(keys[i]))
  }

  /** The permutation a stable ascending sort by integer keys applies: keys
      never decrease along it, and equal keys keep their order. */
  function OrderPermutation(keys: seq<int>): (p: seq<nat>)
    ensures IsPermutation(p, |keys|)
    ensures forall a, b :: 0 <= a < b < |keys| ==> keys[p[a]] <= keys[p[b]] && (keys[p[a]] == keys[p[b]] ==> p[a] < p[b])
  {
    IntSortOrdered(keys);
    Sort(IntValues(keys), false).perm
  }

  lemma IntSortOrdered(keys: seq<int>)
    ensures Sort(IntValues(keys), false).Ordered?
    ensures var p := Sort(IntValues(keys), false).perm;
      forall a, b :: 0 <= a < b < |keys| ==> keys[p[a]] <= keys[p[b]] && (keys[p[a]] == keys[p[b]] ==> p[a] < p[b])
  {
    var vals := IntValues(keys);
    assert AllScalar(vals) && SameKind(vals);
    ScalarSortSucceedsIff(vals, false);
    var p := Sort(vals, false).perm;
    forall a, b | 0 <= a < b < |keys|
      ensures keys[p[a]] <= keys[p[b]] && (keys[p[a]] == keys[p[b]] ==> p[a] < p[b])
    {
      ScalarSortOrdered(vals, false, a, b);
    }
  }

  /** The items of `xs` at positions `idx`, in that order, are what a stable
      ascending sort by `key` puts first: the positions are distinct, their
      keys never decrease, items of equal key keep their order in `xs`, and
      an item at a position left out has a key no lower than any taken, and
      comes after every taken item of equal key. */
  predicate StableLowest<T>(xs: seq<T>, key: T -> Result<int>, idx: seq<nat>)
  {
    && (forall k :: 0 <= k < |xs| ==> key(xs[k]).Ok?)
    && Indices(idx, |xs|)
    && (forall a, b :: 0 <= a < b < |idx| ==> idx[a] != idx[b])
    && (forall a, b :: 0 <= a < b < |idx| ==>
          && key(xs[idx[a]]).value <= key(xs[idx[b]]).value
          && (key(xs[idx[a]]).value == key(xs[idx[b]]).value ==> idx[a] < idx[b]))
    && (forall i, k :: 0 <= i < |xs| && i !in idx && 0 <= k < |idx| ==>
          && key(xs[idx[k]]).value <= key(xs[i]).value
          && (key(xs[idx[k]]).value == key(xs[i]).value ==> idx[k] < i))
  }

  /** `shown` lists, in order, the items of `xs` that a stable ascending
      sort by `key` puts first. */
  ghost predicate StableFirst<T>(xs: seq<T>, key: T -> Result<int>, shown: seq<T>)
  {
    exists idx :: StableLowest(xs, key, idx) && shown == Permute(xs, idx)
  }

  /** `xs.sort(key=key)` for integer keys: the sorted list, or the error of
      the first key that raises (the list is then left as it was). The sort
      is stable: it is a permutation of `xs` in non-decreasing key order
      that keeps items of equal key in their order. */
  function SortedBy<T>(xs: seq<T>, key: T -> Result<int>): (r: Result<seq<T>>)
    ensures r.Ok? <==> forall k :: 0 <= k < |xs| ==> key(xs[k]).Ok?
    ensures r.Ok? ==> multiset(r.value) == multiset(xs)
    ensures r.Ok? ==> |r.value| == |xs| && forall a, b :: 0 <= a < b < |xs| ==> key(r.value[a]).Ok? && key(r.value[b]).Ok? && key(r.value[a]).value <= key(r.value[b]).value
    ensures r.Ok? ==> exists p :: IsPermutation(p, |xs|) && StableLowest(xs, key, p) && r.value == Permute(xs, p)
  {
    match KeysOf(xs, key)
    case Failure(e) => Failure(e)
    case Ok(keys) =>
      var p := OrderPermutation(keys);
      PermuteIsPermutation(xs, p);
      assert StableLowest(xs, key, p);
      Ok(Permute(xs, p))
  }

  /** Taking `[:count]` of a list sorted by key keeps the items of lowest
      key, as many as the slice keeps: they are distinct items of
      the list, in order, no item left out has a lower key than one taken,
      and of items with equal keys the ones listed first are taken. */
  lemma TakeLowest<T>(xs: seq<T>, key: T -> Result<int>, count: int)
    requires SortedBy(xs, key).Ok?
    ensures var shown := Take(SortedBy(xs, key).value, count);
      && |shown| == SliceLength(|xs|, count)
      && multiset(shown) <= multiset(xs)
      && (forall k :: 0 <= k < |shown| ==> shown[k] in xs && key(shown[k]).Ok?)
      && (forall a, b :: 0 <= a < b < |shown| ==> key(shown[a]).value <= key(shown[b]).value)
      && (forall x :: x in xs && x !in shown ==>
            key(x).Ok? && forall k :: 0 <= k < |shown| ==> key(shown[k]).value <= key(x).value)
      && StableFirst(xs, key, shown)
  {
    var sorted := SortedBy(xs, key).value;
    var n := |Take(sorted, count)|;
    assert Take(sorted, count) == sorted[..n];
    FirstOfSorted(xs, key, sorted, n);
    assert StableFirst(xs, key, sorted[..n]) by {
      var p :| IsPermutation(p, |xs|) && StableLowest(xs, key, p) && sorted == Permute(xs, p);
      PrefixStableLowest(xs, key, p, n);
      PermuteOfPrefix(xs, p, n);
    }
  }

  lemma PermuteOfPrefix<T>(xs: seq<T>, p: seq<nat>, n: nat)
    requires Indices(p, |xs|) && n <= |p|
    ensures Permute(xs, p)[..n] == Permute(xs, p[..n])
  {
  }

  /** The first `n` items of a sorted permutation of `xs` are distinct items
      of `xs`, none of them of a higher key than an item after them. */
  lemma FirstOfSorted<T>(xs: seq<T>, key: T -> Result<int>, sorted: seq<T>, n: nat)
    requires multiset(sorted) == multiset(xs) && n <= |sorted|
    requires forall k :: 0 <= k < |sorted| ==> key(sorted[k]).Ok?
    requires forall a, b :: 0 <= a < b < |sorted| ==> key(sorted[a]).value <= key(sorted[b]).value
    ensures var shown := sorted[..n];
      && multiset(shown) <= multiset(xs)
      && (forall k :: 0 <= k < |shown| ==> shown[k] in xs)
      && (forall x :: x in xs && x !in shown ==>
            key(x).Ok? && forall k :: 0 <= k < |shown| ==> key(shown[k]).value <= key(x).value)
  {
    var shown := sorted[..n];
    assert sorted == shown + sorted[n..];
    forall k | 0 <= k < |shown|
      ensures shown[k] in xs
    {
      assert shown[k] in multiset(sorted);
    }
    forall x | x in xs && x !in shown
      ensures key(x).Ok? && forall k :: 0 <= k < |shown| ==> key(shown[k]).value <= key(x).value
    {
      assert x in multiset(sorted);
      var j :| 0 <= j < |sorted| && sorted[j] == x;
      assert j >= |shown|;
    }
  }

  /** The first `n` positions of a stable sort are the `n` it puts first. */
  lemma PrefixStableLowest<T>(xs: seq<T>, key: T -> Result<int>, p: seq<nat>, n: nat)
    requires IsPermutation(p, |xs|) && StableLowest(xs, key, p) && n <= |xs|
    ensures StableLowest(xs, key, p[..n])
  {
    PrefixLeftOut(xs, key, p, n);
  }

  /** A position after the first `n` of a stable sort holds an item of key
      no lower than theirs, and it comes after those of equal key. */
  lemma PrefixLeftOut<T>(xs: seq<T>, key: T -> Result<int>, p: seq<nat>, n: nat)
    requires IsPermutation(p, |xs|) && StableLowest(xs, key, p) && n <= |xs|
    ensures forall i, k :: 0 <= i < |xs| && i !in p[..n] && 0 <= k < n ==>
      && key(xs[p[k]]).value <= key(xs[i]).value
      && (key(xs[p[k]]).value == key(xs[i]).value ==> p[k] < i)
  {
    forall i, k | 0 <= i < |xs| && i !in p[..n] && 0 <= k < n
      ensures key(xs[p[k]]).value <= key(xs[i]).value
      ensures key(xs[p[k]]).value == key(xs[i]).value ==> p[k] < i
    {
      assert i in p;
      var j :| 0 <= j < |p| && p[j] == i;
      assert j >= n by {
        assert forall m :: 0 <= m < n ==> p[..n][m] == p[m];
      }
    }
  }

  /** When every item has the same key, the sort moves nothing: with no
      `order` set anywhere, all keys are 999 and the list keeps its order. */
  lemma EqualKeysKeepOrder<T>(xs: seq<T>, key: T -> Result<int>)
    requires forall i, j :: 0 <= i < |xs| && 0 <= j < |xs| ==> key(xs[i]) == key(xs[j])
    requires forall k :: 0 <= k < |xs| ==> key(xs[k]).Ok?
    ensures SortedBy(xs, key) == Ok(xs)
  {
    var sorted := SortedBy(xs, key).value;
    var p :| IsPermutation(p, |xs|) && StableLowest(xs, key, p) && sorted == Permute(xs, p);
    SameKeysIdentity(xs, key, p);
  }

  /** Every element has key `c`. */
  predicate AllKeyed<T>(xs: seq<T>, key: T -> Result<int>, c: int)
  {
    forall k :: 0 <= k < |xs| ==> key(xs[k]) == Ok(c)
  }

  lemma ConstantKeysKeepOrder<T>(xs: seq<T>, key: T -> Result<int>, c: int)
    requires AllKeyed(xs, key, c)
    ensures SortedBy(xs, key) == Ok(xs)
  {
    EqualKeysKeepOrder(xs, key);
  }

  lemma SameKeysIdentity<T>(xs: seq<T>, key: T -> Result<int>, p: seq<nat>)
    requires forall i, j :: 0 <= i < |xs| && 0 <= j < |xs| ==> key(xs[i]) == key(xs[j])
    requires IsPermutation(p, |xs|) && StableLowest(xs, key, p)
    ensures Permute(xs, p) == xs
  {
    forall a, b | 0 <= a < b < |xs|
      ensures p[a] < p[b]
    {
      assert key(xs[p[a]]) == key(xs[p[b]]);
    }
    IncreasingPermutationIsIdentity(p, |xs|);
  }

  /** The same, in place. */
  method SortBy<T>(xs: array<T>, key: T -> Result<int>) returns (error: Option<string>)
    modifies xs
    ensures match SortedBy(old(xs[..]), key)
      case Ok(sorted) => error == None && xs[..] == sorted
      case Failure(e) => error == Some(e) && xs[..] == old(xs[..])
  {
    var keys := KeysOf(xs[..], key);
    if keys.Failure? {
      return Some(keys.error);
    }
    var p := OrderPermutation(keys.value);
    Rearrange(xs, p);
    error := None;
  }

  // ---------------------------------------------------------------------------
  // The HTML both shortcode scripts share

  /** `str(metadata.get(key, default))`, as an f-string shows it. */
  function ShownValue(m: map<string, Value>, key: string, default: string): string
  {
    if key in m then PyStr(m[key]) else default
  }

  const FeaturedHeader := "<div class=\"featured-projects\">\n<h2>Featured Projects</h2>\n<div class=\"project-grid\">\n"
  const SectionHeader := "<div class=\"section-list\">\n<div class=\"project-grid\">\n"
  const GridFooter := "</div>\n</div>\n"
}
