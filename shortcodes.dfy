/** The shortcode engine of zerodown/shortcodes.py: the pattern that finds
    `[name params]` in converted HTML, the filters that decide which matches
    are expanded, the parameter parser, the registry of handlers and the
    four built-in handlers.

    A handler's HTML comes from a Jinja template; the model stops at what
    the template is given (`Listing`) and takes the rendering as a
    parameter `render`, which fails with the message of the exception it
    raises. */
module Shortcodes {
  import opened Text
  import opened Values
  import opened Items
  import opened Scanning

  // ---------------------------------------------------------------------------
  // The pattern (?<!\s)\[(\w+)(?:\s+([^\]]+))?\](?!\()

  /** One match: `s[start..end]` is `[`, the name, the whitespace `gap`, the
      parameter string (group 2, absent when the gap is) and `]`. */
  datatype Shortcode = Shortcode(start: nat, end: nat, name: string, gap: string, params: Option<string>)

  function ParamText(params: Option<string>): string
  {
    if params.Some? then params.value else []
  }

  predicate AllWord(s: string)
  {
    forall k :: 0 <= k < |s| ==> IsWordChar(s[k])
  }

  predicate AllSpace(s: string)
  {
    forall k :: 0 <= k < |s| ==> IsSpace(s[k])
  }

  /** The end of the run of word characters starting at `i`. */
  function WordEnd(s: string, i: nat): (e: nat)
    requires i <= |s|
    ensures i <= e <= |s| && AllWord(s[i..e]) && (e < |s| ==> !IsWordChar(s[e]))
    decreases |s| - i
  {
    if i < |s| && IsWordChar(s[i]) then WordEnd(s, i + 1) else i
  }

  /** The end of the run of whitespace starting at `i`. */
  function SpaceEnd(s: string, i: nat): (e: nat)
    requires i <= |s|
    ensures i <= e <= |s| && AllSpace(s[i..e]) && (e < |s| ==> !IsSpace(s[e]))
    decreases |s| - i
  {
    if i < |s| && IsSpace(s[i]) then SpaceEnd(s, i + 1) else i
  }

  /** The first position at or after `i` holding `c`, or `|s|`. */
  function CharFrom(s: string, i: nat, c: char): (k: nat)
    requires i <= |s|
    ensures i <= k <= |s| && c !in s[i..k] && (k < |s| ==> s[k] == c)
    decreases |s| - i
  {
    if i == |s| || s[i] == c then i else CharFrom(s, i + 1, c)
  }

  /** `s[p..m.end]` is `[`, a name, and optionally whitespace and a
      parameter string, then `]`: the pattern without its lookarounds. */
  predicate BracketText(s: string, p: nat, m: Shortcode)
  {
    && m.start == p && p < m.end <= |s|
    && s[p..m.end] == "[" + m.name + m.gap + ParamText(m.params) + "]"
    && m.name != [] && AllWord(m.name) && AllSpace(m.gap)
    && (m.gap == [] <==> m.params.None?)
    && (m.params.Some? ==> m.params.value != [] && ']' !in m.params.value)
  }

  /** `m` is a match of the pattern at `p` in `s`. */
  predicate Matched(s: string, p: nat, m: Shortcode)
  {
    && BracketText(s, p, m)
    && (p == 0 || !IsSpace(s[p - 1]))
    && (m.end == |s| || s[m.end] != '(')
  }

  /** The match the pattern makes at `p`, if any. The name is the whole run
      of word characters and the match ends at the first `]` after it; no
      other match at `p` has another name or end (`ShortcodeFound`). Where
      the whitespace and the parameter string could be split in several
      ways, this takes the split Python's backtracking takes: all the
      whitespace, or all but one character of it when `]` follows at once. */
  function ShortcodeAt(s: string, p: nat): (r: Option<Shortcode>)
    ensures r.Some? ==> Matched(s, p, r.value)
  {
    if p >= |s| || s[p] != '[' || (p > 0 && IsSpace(s[p - 1])) then None
    else
      var e := WordEnd(s, p + 1);
      if e == p + 1 || e == |s| then None
      else if s[e] == ']' then BareShortcode(s, p, e)
      else if !IsSpace(s[e]) then None
      else ShortcodeWithParams(s, p, e)
  }

  /** A name closed at once by `]`. */
  function BareShortcode(s: string, p: nat, e: nat): (r: Option<Shortcode>)
    requires p < |s| && s[p] == '[' && (p == 0 || !IsSpace(s[p - 1]))
    requires p + 1 < e < |s| && AllWord(s[p + 1..e]) && s[e] == ']'
    ensures r.Some? ==> Matched(s, p, r.value)
  {
    if e + 1 < |s| && s[e + 1] == '(' then None
    else
      assert s[p..e + 1] == "[" + s[p + 1..e] + [] + [] + "]";
      Some(Shortcode(p, e + 1, s[p + 1..e], [], None))
  }

  /** A name followed by whitespace: the parameter string follows. */
  function ShortcodeWithParams(s: string, p: nat, e: nat): (r: Option<Shortcode>)
    requires p < |s| && s[p] == '[' && (p == 0 || !IsSpace(s[p - 1]))
    requires p + 1 < e < |s| && AllWord(s[p + 1..e]) && IsSpace(s[e])
    ensures r.Some? ==> Matched(s, p, r.value)
  {
    var f := SpaceEnd(s, e);
    if f == |s| then None
    else
      var g := if s[f] == ']' then f - 1 else f;
      if g == e then None
      else
        var q := CharFrom(s, g, ']');
        if q == |s| || (q + 1 < |s| && s[q + 1] == '(') then None
        else
          ParamsMatched(s, p, e, f, g, q);
          Some(Shortcode(p, q + 1, s[p + 1..e], s[e..g], Some(s[g..q])))
  }

  lemma ParamsMatched(s: string, p: nat, e: nat, f: nat, g: nat, q: nat)
    requires p < |s| && s[p] == '[' && (p == 0 || !IsSpace(s[p - 1]))
    requires p + 1 < e < g <= f <= |s| && g < q < |s| && AllWord(s[p + 1..e]) && AllSpace(s[e..f])
    requires s[q] == ']' && ']' !in s[g..q] && (q + 1 == |s| || s[q + 1] != '(')
    ensures Matched(s, p, Shortcode(p, q + 1, s[p + 1..e], s[e..g], Some(s[g..q])))
  {
    forall k | e <= k < g
      ensures IsSpace(s[k])
    {
      assert s[k] == s[e..f][k - e];
    }
    assert AllSpace(s[e..g]);
    SliceInFive(s, p, e, g, q);
  }

  lemma {:induction false} WordEndStops(s: string, i: nat, e: nat)
    requires i <= e <= |s| && (forall k :: i <= k < e ==> IsWordChar(s[k])) && (e < |s| ==> !IsWordChar(s[e]))
    ensures WordEnd(s, i) == e
    decreases e - i
  {
    if i < e {
      WordEndStops(s, i + 1, e);
    }
  }

  lemma {:induction false} CharFromStops(s: string, i: nat, e: nat, c: char)
    requires i <= e < |s| && (forall k :: i <= k < e ==> s[k] != c) && s[e] == c
    ensures CharFrom(s, i, c) == e
    decreases e - i
  {
    if i < e {
      CharFromStops(s, i + 1, e, c);
    }
  }

  /** The parts of the text of a match. */
  lemma BracketParts(s: string, p: nat, m: Shortcode)
    requires BracketText(s, p, m)
    ensures var e := p + 1 + |m.name|;
      var a := e + |m.gap|;
      && m.end == a + |ParamText(m.params)| + 1 && s[p] == '[' && s[m.end - 1] == ']'
      && s[p + 1..e] == m.name && s[e..a] == m.gap && s[a..m.end - 1] == ParamText(m.params)
  {
    BracketedSlice(s, p, m.end, '[', m.name, m.gap, ParamText(m.params), ']');
    SliceInThree(s, p + 1, m.end - 1, m.name, m.gap, ParamText(m.params));
  }

  /** Whitespace from `e` to `a`, then characters other than `]` up to the
      `]` at `q`, the first of them not `]`: the matcher's whitespace run
      stops before `q`, and its search for `]` from where it puts the
      parameters finds `q`. */
  lemma ParamRunStops(s: string, e: nat, a: nat, q: nat)
    requires e < a < q < |s| && s[q] == ']' && s[a] != ']'
    requires forall k :: e <= k < a ==> IsSpace(s[k])
    requires forall k :: a <= k < q ==> s[k] != ']'
    ensures SpaceEnd(s, e) < |s|
    ensures var f := SpaceEnd(s, e);
      var g := if s[f] == ']' then f - 1 else f;
      e < g && CharFrom(s, g, ']') == q
  {
    var f := SpaceEnd(s, e);
    var g := if s[f] == ']' then f - 1 else f;
    CharFromStops(s, g, q, ']');
  }

  /** Where the matcher's runs stop on the text of a match: the run of word
      characters ends where the name does, and the first `]` after the
      whitespace is the closing one. */
  lemma BracketedCuts(s: string, p: nat, m: Shortcode)
    requires BracketText(s, p, m)
    ensures var e := p + 1 + |m.name|;
      && p < |s| && s[p] == '[' && p + 1 < e < |s| && WordEnd(s, p + 1) == e && s[p + 1..e] == m.name
      && (m.gap == [] ==> s[e] == ']' && m.end == e + 1)
      && (m.gap != [] ==>
            && IsSpace(s[e]) && SpaceEnd(s, e) < |s|
            && var f := SpaceEnd(s, e);
               var g := if s[f] == ']' then f - 1 else f;
               e < g && CharFrom(s, g, ']') == m.end - 1)
  {
    BracketParts(s, p, m);
    var name, gap, params := m.name, m.gap, ParamText(m.params);
    var e := p + 1 + |name|;
    var a := e + |gap|;
    forall k | p + 1 <= k < e
      ensures IsWordChar(s[k])
    {
      assert s[k] == s[p + 1..e][k - p - 1];
    }
    if gap == [] {
      WordEndStops(s, p + 1, e);
    } else {
      assert s[e] == s[e..a][0];
      WordEndStops(s, p + 1, e);
      forall k | e <= k < a
        ensures IsSpace(s[k])
      {
        assert s[k] == s[e..a][k - e];
      }
      forall k | a <= k < m.end - 1
        ensures s[k] != ']'
      {
        assert s[k] == s[a..m.end - 1][k - a];
      }
      ParamRunStops(s, e, a, m.end - 1);
    }
  }

  /** Every match at `p` is found: `ShortcodeAt` answers with a match of
      the same name and the same end. */
  lemma ShortcodeFound(s: string, p: nat, m: Shortcode)
    requires Matched(s, p, m)
    ensures ShortcodeAt(s, p).Some? && ShortcodeAt(s, p).value.end == m.end && ShortcodeAt(s, p).value.name == m.name
  {
    BracketedCuts(s, p, m);
    ShortcodeEndsAt(s, p, p + 1 + |m.name|, m.end - 1);
  }

  /** The matcher's answer at `p`, given where its runs stop: the name ends
      at `e` and the match at the `]` at `q`. */
  lemma ShortcodeEndsAt(s: string, p: nat, e: nat, q: nat)
    requires p < |s| && s[p] == '[' && (p == 0 || !IsSpace(s[p - 1]))
    requires p + 1 < e <= q < |s| && WordEnd(s, p + 1) == e && (q + 1 == |s| || s[q + 1] != '(')
    requires e == q ==> s[e] == ']'
    requires e < q ==>
      && IsSpace(s[e]) && SpaceEnd(s, e) < |s|
      && var f := SpaceEnd(s, e);
         var g := if s[f] == ']' then f - 1 else f;
         e < g && CharFrom(s, g, ']') == q
    ensures ShortcodeAt(s, p).Some? && ShortcodeAt(s, p).value.end == q + 1 && ShortcodeAt(s, p).value.name == s[p + 1..e]
  {
    if e < q {
      assert s[e] != ']';
      assert ShortcodeAt(s, p) == ShortcodeWithParams(s, p, e);
    }
  }

  /** Where the match at `p` ends, or `p` when there is none. */
  function ShortcodeEnd(s: string, p: nat): nat
  {
    match ShortcodeAt(s, p)
    case Some(m) => m.end
    case None => p
  }

  // ---------------------------------------------------------------------------
  // Parameters: (\w+)=["\']([^"\']+)["\'] over the parameter string

  predicate IsQuote(c: char)
  {
    c == '"' || c == '\''
  }

  /** The first quote character at or after `i`, or `|s|`. */
  function QuoteFrom(s: string, i: nat): (k: nat)
    requires i <= |s|
    ensures i <= k <= |s| && (forall j :: i <= j < k ==> !IsQuote(s[j])) && (k < |s| ==> IsQuote(s[k]))
    decreases |s| - i
  {
    if i == |s| || IsQuote(s[i]) then i else QuoteFrom(s, i + 1)
  }

  /** The `key=value` match at `i`: a word, `=`, a quote, one or more
      characters that are not quotes, and a quote (of either kind). */
  function ParamAt(s: string, i: nat): (r: Option<(string, string, nat)>)
    ensures r.Some? ==>
      var (key, value, end) := r.value;
      && end == i + |key| + |value| + 3 <= |s|
      && key != [] && AllWord(key) && value != [] && (forall j :: 0 <= j < |value| ==> !IsQuote(value[j]))
      && s[i..end] == key + "=" + [s[i + |key| + 1]] + value + [s[end - 1]]
      && IsQuote(s[i + |key| + 1]) && IsQuote(s[end - 1])
  {
    if i >= |s| then None
    else
      var e := WordEnd(s, i);
      if e == i || e + 1 >= |s| || s[e] != '=' || !IsQuote(s[e + 1]) then None
      else
        var q := QuoteFrom(s, e + 2);
        if q == e + 2 || q == |s| then None
        else
          SliceAroundPair(s, i, e, q);
          var value := s[e + 2..q];
          assert forall j :: 0 <= j < |value| ==> value[j] == s[e + 2 + j];
          Some((s[i..e], s[e + 2..q], q + 1))
  }

  function ParamEnd(s: string, i: nat): nat
  {
    match ParamAt(s, i)
    case Some((_, _, end)) => end
    case None => i
  }

  /** The pattern, as `FindAll` takes it. */
  function ParamPattern(s: string): nat -> nat
  {
    i => ParamEnd(s, i)
  }

  /** The `(key, value)` pairs `re.finditer` yields, in order. */
  function FoundPairs(s: string): (r: seq<(string, string)>)
    ensures forall k :: 0 <= k < |r| ==> r[k].0 != [] && AllWord(r[k].0) && r[k].1 != []
  {
    PairsOf(s, FindAll(s, 0, ParamPattern(s)))
  }

  /** The pairs the scan finds from position `i` on, pair by pair: a
      pair where one starts, and the scan resumes after it; otherwise the
      scan moves on by one character. */
  function FoundFrom(s: string, i: nat): seq<(string, string)>
    decreases |s| - i
  {
    if i >= |s| then []
    else
      match ParamAt(s, i)
      case Some((key, value, end)) => [(key, value)] + FoundFrom(s, end)
      case None => FoundFrom(s, i + 1)
  }

  /** The pair-by-pair scan yields what `re.finditer` does. */
  lemma {:induction false} FoundFromAgrees(s: string, i: nat)
    ensures PairsOf(s, FindAll(s, i, ParamPattern(s))) == FoundFrom(s, i)
    decreases |s| - i
  {
    var matchEnd := ParamPattern(s);
    if i < |s| {
      match ParamAt(s, i)
      case Some((key, value, end)) =>
        FoundFromAgrees(s, end);
        FindAllMatch(s, i, matchEnd, end);
        PairsOfCons(s, i, end, FindAll(s, end, matchEnd), key, value);
      case None =>
        FoundFromAgrees(s, i + 1);
        FindAllSkip(s, i, matchEnd);
    }
  }

  function PairsOf(s: string, spans: seq<Span>): (r: seq<(string, string)>)
    ensures forall k :: 0 <= k < |r| ==> r[k].0 != [] && AllWord(r[k].0) && r[k].1 != []
  {
    if spans == [] then []
    else
      var rest := PairsOf(s, spans[1..]);
      match ParamAt(s, spans[0].start)
      case Some((key, value, _)) => [(key, value)] + rest
      case None => rest
  }

  /** A Python dict of strings: keys in insertion order, each once. */
  type Params = seq<(string, string)>

  predicate DistinctKeys(d: Params)
  {
    forall a, b :: 0 <= a < b < |d| ==> d[a].0 != d[b].0
  }

  /** `d[key] = value`: an existing key keeps its place and takes the new
      value; a new key goes at the end. */
  function Store(d: Params, key: string, value: string): (r: Params)
    requires DistinctKeys(d)
    ensures DistinctKeys(r)
    ensures forall k :: 0 <= k < |r| ==> r[k].0 == key || exists j :: 0 <= j < |d| && d[j] == r[k]
    ensures forall j :: 0 <= j < |d| && d[j].0 != key ==> d[j] in r
    ensures (key, value) in r
  {
    if d == [] then [(key, value)]
    else if d[0].0 == key then
      assert forall j :: 1 <= j < |d| ==> d[j].0 != key;
      [(key, value)] + d[1..]
    else
      var rest := Store(d[1..], key, value);
      assert forall k :: 0 <= k < |rest| ==> rest[k].0 != d[0].0 by {
        forall k | 0 <= k < |rest|
          ensures rest[k].0 != d[0].0
        {
          if rest[k].0 != key {
            var j :| 0 <= j < |d[1..]| && d[1..][j] == rest[k];
            assert d[j + 1] == rest[k];
          }
        }
      }
      [d[0]] + rest
  }

  /** `d.get(key)` */
  function Lookup(d: Params, key: string): Option<string>
  {
    if d == [] then None else if d[0].0 == key then Some(d[0].1) else Lookup(d[1..], key)
  }

  /** The dict the loop `params[key] = value` builds from `pairs`. */
  function StoreAll(d: Params, pairs: seq<(string, string)>): (r: Params)
    requires DistinctKeys(d)
    ensures DistinctKeys(r)
    decreases |pairs|
  {
    if pairs == [] then d else StoreAll(Store(d, pairs[0].0, pairs[0].1), pairs[1..])
  }

  /** The parameters of a shortcode. */
  function ParseParams(paramsStr: string): (r: Params)
    ensures DistinctKeys(r)
  {
    StoreAll([], FoundPairs(paramsStr))
  }

  /** The value the last pair with `key` gives, if any: an independent
      reading of "later duplicates overwrite earlier ones". */
  function LastValue(pairs: seq<(string, string)>, key: string): Option<string>
  {
    if pairs == [] then None
    else if pairs[|pairs| - 1].0 == key then Some(pairs[|pairs| - 1].1)
    else LastValue(pairs[..|pairs| - 1], key)
  }

  lemma LookupDistinct(d: Params, key: string, value: string)
    requires DistinctKeys(d) && (key, value) in d
    ensures Lookup(d, key) == Some(value)
  {
    if d[0] != (key, value) {
      assert (key, value) in d[1..];
      LookupDistinct(d[1..], key, value);
    }
  }

  lemma {:induction false} LookupAbsent(d: Params, key: string)
    requires forall k :: 0 <= k < |d| ==> d[k].0 != key
    ensures Lookup(d, key) == None
  {
    if d != [] {
      LookupAbsent(d[1..], key);
    }
  }

  lemma StoreLookup(d: Params, key: string, value: string, other: string)
    requires DistinctKeys(d)
    ensures Lookup(Store(d, key, value), key) == Some(value)
    ensures other != key ==> Lookup(Store(d, key, value), other) == Lookup(d, other)
  {
    LookupDistinct(Store(d, key, value), key, value);
    if other != key {
      LookupStore(d, key, value, other);
    }
  }

  lemma {:induction false} LookupStore(d: Params, key: string, value: string, other: string)
    requires DistinctKeys(d) && other != key
    ensures Lookup(Store(d, key, value), other) == Lookup(d, other)
  {
    if d != [] && d[0].0 != key {
      LookupStore(d[1..], key, value, other);
    }
  }

  lemma {:induction false} StoreAllLookup(d: Params, pairs: seq<(string, string)>, key: string)
    requires DistinctKeys(d)
    ensures Lookup(StoreAll(d, pairs), key) == if LastValue(pairs, key).Some? then LastValue(pairs, key) else Lookup(d, key)
    decreases |pairs|
  {
    if pairs != [] {
      var d' := Store(d, pairs[0].0, pairs[0].1);
      StoreAllLookup(d', pairs[1..], key);
      StoreLookup(d, pairs[0].0, pairs[0].1, key);
      LastValueCons(pairs, key);
    }
  }

  lemma {:induction false} LastValueCons(pairs: seq<(string, string)>, key: string)
    requires pairs != []
    ensures LastValue(pairs, key) ==
      if LastValue(pairs[1..], key).Some? then LastValue(pairs[1..], key)
      else if pairs[0].0 == key then Some(pairs[0].1) else None
    decreases |pairs|
  {
    if |pairs| > 1 && pairs[|pairs| - 1].0 != key {
      LastValueCons(pairs[..|pairs| - 1], key);
      assert pairs[..|pairs| - 1][1..] == pairs[1..][..|pairs[1..]| - 1];
    }
  }

  /** Each parameter holds the value of the last `key=value` pair naming it. */
  lemma ParamsLastWins(paramsStr: string, key: string)
    ensures Lookup(ParseParams(paramsStr), key) == LastValue(FoundPairs(paramsStr), key)
  {
    StoreAllLookup([], FoundPairs(paramsStr), key);
  }

  /** One pair written out: the key, `=`, the value between the quotes
      `q1` and `q2`. */
  function PairText(key: string, value: string, q1: char, q2: char): string
  {
    key + "=" + [q1] + value + [q2]
  }

  /** A key and a value the pattern can read back: a word, and a non-empty
      value without quotes. */
  predicate Writable(key: string, value: string)
  {
    key != [] && AllWord(key) && value != [] && forall j :: 0 <= j < |value| ==> !IsQuote(value[j])
  }

  lemma {:induction false} QuoteFromStops(s: string, i: nat, e: nat)
    requires i <= e < |s| && (forall k :: i <= k < e ==> !IsQuote(s[k])) && IsQuote(s[e])
    ensures QuoteFrom(s, i) == e
    decreases e - i
  {
    if i < e {
      QuoteFromStops(s, i + 1, e);
    }
  }

  /** A pair written out at `i` is read back there, whatever follows it. */
  lemma ParamAtWritten(s: string, i: nat, key: string, value: string, q1: char, q2: char)
    requires Writable(key, value) && IsQuote(q1) && IsQuote(q2)
    requires i + |key| + |value| + 3 <= |s| && s[i..i + |key| + |value| + 3] == PairText(key, value, q1, q2)
    ensures ParamAt(s, i) == Some((key, value, i + |key| + |value| + 3))
  {
    var e := i + |key|;
    var q := e + 2 + |value|;
    var w := PairText(key, value, q1, q2);
    assert w == key + ("=" + [q1] + value + [q2]);
    forall k | i <= k < e
      ensures s[k] == key[k - i]
    {
      assert s[k] == w[k - i];
    }
    assert s[e] == w[|key|] == '=';
    assert s[e + 1] == w[|key| + 1] == q1;
    forall k | e + 2 <= k < q
      ensures s[k] == value[k - e - 2]
    {
      assert s[k] == w[k - i];
    }
    assert s[q] == w[|w| - 1] == q2;
    WordEndStops(s, i, e);
    QuoteFromStops(s, e + 2, q);
    assert s[i..e] == key;
    assert s[e + 2..q] == value;
  }

  /** Pairs written out with the quote `q`, one space between them: the
      form a page author writes. */
  function WrittenParams(pairs: seq<(string, string)>, q: char): string
  {
    if pairs == [] then []
    else if |pairs| == 1 then PairText(pairs[0].0, pairs[0].1, q, q)
    else PairText(pairs[0].0, pairs[0].1, q, q) + " " + WrittenParams(pairs[1..], q)
  }

  /** The first of the written pairs, and what follows it. */
  lemma WrittenHead(s: string, i: nat, pairs: seq<(string, string)>, q: char)
    requires IsQuote(q) && pairs != [] && Writable(pairs[0].0, pairs[0].1)
    requires i <= |s| && s[i..] == WrittenParams(pairs, q)
    ensures var n := |pairs[0].0| + |pairs[0].1| + 3;
      && i + n <= |s| && s[i..i + n] == PairText(pairs[0].0, pairs[0].1, q, q)
      && (|pairs| == 1 ==> i + n == |s|)
      && (|pairs| > 1 ==> i + n < |s| && s[i + n] == ' ' && s[i + n + 1..] == WrittenParams(pairs[1..], q))
  {
    var w := PairText(pairs[0].0, pairs[0].1, q, q);
    var n := |w|;
    var t := s[i..];
    assert t[..n] == w;
    assert s[i..i + n] == w;
    if |pairs| > 1 {
      assert t == w + " " + WrittenParams(pairs[1..], q);
      assert s[i + n] == t[n] == ' ';
      assert s[i + n + 1..] == t[n + 1..];
    }
  }

  /** The pairs are written out from `i` to the end of `s`, pair by pair. */
  predicate WrittenAt(s: string, i: nat, pairs: seq<(string, string)>, q: char)
    decreases |pairs|
  {
    if pairs == [] then i == |s|
    else
      var e := i + |pairs[0].0| + |pairs[0].1| + 3;
      && e <= |s| && s[i..e] == PairText(pairs[0].0, pairs[0].1, q, q)
      && if |pairs| == 1 then e == |s| else e < |s| && s[e] == ' ' && WrittenAt(s, e + 1, pairs[1..], q)
  }

  lemma {:induction false} WrittenAtSuffix(s: string, i: nat, pairs: seq<(string, string)>, q: char)
    requires IsQuote(q) && forall k :: 0 <= k < |pairs| ==> Writable(pairs[k].0, pairs[k].1)
    requires i <= |s| && s[i..] == WrittenParams(pairs, q)
    ensures WrittenAt(s, i, pairs, q)
    decreases |pairs|
  {
    if pairs != [] {
      WrittenHead(s, i, pairs, q);
      if |pairs| > 1 {
        WrittenAtSuffix(s, i + |pairs[0].0| + |pairs[0].1| + 3 + 1, pairs[1..], q);
      }
    }
  }

  /** Every pair is `Writable`, stated pair by pair. */
  predicate AllWritable(pairs: seq<(string, string)>)
  {
    pairs == [] || (Writable(pairs[0].0, pairs[0].1) && AllWritable(pairs[1..]))
  }

  lemma {:induction false} AllWritableEach(pairs: seq<(string, string)>)
    requires forall k :: 0 <= k < |pairs| ==> Writable(pairs[k].0, pairs[k].1)
    ensures AllWritable(pairs)
  {
    if pairs != [] {
      assert forall k :: 0 <= k < |pairs[1..]| ==> pairs[1..][k] == pairs[k + 1];
      AllWritableEach(pairs[1..]);
    }
  }

  /** `re.finditer` reads written pairs back, from any position where they
      start to the end of the text. */
  lemma {:induction false} FindWritten(s: string, i: nat, pairs: seq<(string, string)>, q: char)
    requires IsQuote(q) && AllWritable(pairs)
    requires i <= |s| && WrittenAt(s, i, pairs, q)
    ensures FoundFrom(s, i) == pairs
    decreases |pairs|
  {
    if pairs != [] {
      var e: nat := i + |pairs[0].0| + |pairs[0].1| + 3;
      if |pairs| > 1 {
        FindWritten(s, e + 1, pairs[1..], q);
      }
      FindPairThenRest(s, i, e, pairs[0].0, pairs[0].1, q, pairs[1..]);
      FoundHeadThenRest(FoundFrom(s, i), pairs, pairs[1..]);
    }
  }

  /** A pair at `i` ending at `e`, then either the end of the text or a
      space and pairs found from there: the pair is found first. */
  lemma FindPairThenRest(s: string, i: nat, e: nat, key: string, value: string, q: char, rest: seq<(string, string)>)
    requires Writable(key, value) && IsQuote(q)
    requires e == i + |key| + |value| + 3 <= |s| && s[i..e] == PairText(key, value, q, q)
    requires if rest == [] then e == |s| else e < |s| && s[e] == ' ' && FoundFrom(s, e + 1) == rest
    ensures FoundFrom(s, i) == [(key, value)] + rest
  {
    ParamAtWritten(s, i, key, value, q, q);
    if rest != [] {
      NoParamAt(s, e);
    }
  }

  lemma FoundHeadThenRest(found: seq<(string, string)>, pairs: seq<(string, string)>, rest: seq<(string, string)>)
    requires pairs != [] && found == [(pairs[0].0, pairs[0].1)] + rest && rest == pairs[1..]
    ensures found == pairs
  {
    assert pairs == [pairs[0]] + pairs[1..];
  }

  /** No pair starts at a character that cannot start a key. */
  lemma NoParamAt(s: string, i: nat)
    requires i < |s| && !IsWordChar(s[i])
    ensures ParamAt(s, i) == None && ParamPattern(s)(i) == i
  {
    assert WordEnd(s, i) == i;
  }

  lemma PairsOfCons(s: string, start: nat, end: nat, rest: seq<Span>, key: string, value: string)
    requires ParamAt(s, start) == Some((key, value, end))
    ensures PairsOf(s, [Span(start, end)] + rest) == [(key, value)] + PairsOf(s, rest)
  {
    assert ([Span(start, end)] + rest)[1..] == rest;
  }

  /** `d[key] = value` for a key not yet in `d` appends the pair. */
  lemma {:induction false} StoreNew(d: Params, key: string, value: string)
    requires DistinctKeys(d) && forall k :: 0 <= k < |d| ==> d[k].0 != key
    ensures Store(d, key, value) == d + [(key, value)]
  {
    if d != [] {
      StoreNew(d[1..], key, value);
      assert d == [d[0]] + d[1..];
    }
  }

  /** Storing pairs with distinct new keys appends them in order. */
  lemma {:induction false} StoreAllNew(d: Params, pairs: seq<(string, string)>)
    requires DistinctKeys(d + pairs)
    ensures DistinctKeys(d) && StoreAll(d, pairs) == d + pairs
    decreases |pairs|
  {
    assert forall a, b :: 0 <= a < b < |d| ==> d[a] == (d + pairs)[a] && d[b] == (d + pairs)[b];
    if pairs != [] {
      forall k | 0 <= k < |d|
        ensures d[k].0 != pairs[0].0
      {
        assert (d + pairs)[k] == d[k] && (d + pairs)[|d|] == pairs[0];
      }
      StoreNew(d, pairs[0].0, pairs[0].1);
      assert d + pairs == (d + [pairs[0]]) + pairs[1..];
      StoreAllNew(d + [pairs[0]], pairs[1..]);
    }
  }

  /** Written-out pairs parse back to themselves: the pairs in order, each
      key with its value when the keys are distinct, and the last value of
      each key otherwise (`ParamsLastWins`). */
  lemma ParamsRoundTrip(pairs: seq<(string, string)>, q: char)
    requires IsQuote(q) && forall k :: 0 <= k < |pairs| ==> Writable(pairs[k].0, pairs[k].1)
    ensures FoundPairs(WrittenParams(pairs, q)) == pairs
    ensures DistinctKeys(pairs) ==> ParseParams(WrittenParams(pairs, q)) == pairs
  {
    var s := WrittenParams(pairs, q);
    WrittenAtSuffix(s, 0, pairs, q);
    AllWritableEach(pairs);
    FindWritten(s, 0, pairs, q);
    FoundFromAgrees(s, 0);
    if DistinctKeys(pairs) {
      assert [] + pairs == pairs;
      StoreAllNew([], pairs);
    }
  }

  /** One pair reads back as itself, whichever quote opens and closes it:
      the pattern does not require the two quotes to agree. */
  lemma ParamRoundTrip(key: string, value: string, q1: char, q2: char)
    requires Writable(key, value) && IsQuote(q1) && IsQuote(q2)
    ensures ParseParams(PairText(key, value, q1, q2)) == [(key, value)]
  {
    var s := PairText(key, value, q1, q2);
    var matchEnd := ParamPattern(s);
    assert s[0..|s|] == s;
    ParamAtWritten(s, 0, key, value, q1, q2);
    assert FindAll(s, |s|, matchEnd) == [];
    assert FindAll(s, 0, matchEnd) == [Span(0, |s|)];
    assert PairsOf(s, [Span(0, |s|)]) == [(key, value)] + PairsOf(s, []);
    assert FoundPairs(s) == [(key, value)];
    assert StoreAll([], [(key, value)]) == StoreAll([(key, value)], []);
  }

  // ---------------------------------------------------------------------------
  // Handlers and the registry

  /** The built-in handler functions. */
  datatype Handler = FeaturedItems | LatestPosts | SectionList | FeaturedProjects

  function FunctionName(h: Handler): string
  {
    match h
    case FeaturedItems => "featured_items_shortcode"
    case LatestPosts => "latest_posts_shortcode"
    case SectionList => "section_list_shortcode"
    case FeaturedProjects => "featured_projects_shortcode"
  }

  /** The keyword parameters after `context`. */
  function Keywords(h: Handler): seq<string>
  {
    match h
    case FeaturedItems => ["count", "section"]
    case LatestPosts => ["count", "section"]
    case SectionList => ["section"]
    case FeaturedProjects => ["count"]
  }

  /** The `TypeError` that calling `handler(context, **params)` raises,
      for the first keyword in order that it cannot bind. */
  function BindError(h: Handler, params: Params): (r: Option<string>)
    ensures r.None? <==> forall k :: 0 <= k < |params| ==> params[k].0 != "context" && params[k].0 in Keywords(h)
  {
    if params == [] then None
    else if params[0].0 == "context" then Some(FunctionName(h) + "() got multiple values for argument 'context'")
    else if params[0].0 !in Keywords(h) then
      Some(FunctionName(h) + "() got an unexpected keyword argument '" + params[0].0 + "'")
    else BindError(h, params[1..])
  }

  /** What a handler hands to its template. */
  datatype Listing =
    | FeaturedList(items: seq<ContentItem>)
    | PostList(items: seq<ContentItem>)
    | SectionItems(items: seq<ContentItem>)
    | SectionIndex(sections: Sections)
    | ProjectGrid(items: seq<ContentItem>)

  /** A handler's answer: fixed HTML, or a template to render. */
  datatype Reply = Html(text: string) | Render(listing: Listing)

  const NoFeaturedItems := "<p>No featured items found. Mark items as featured by adding <code>featured: true</code> to their frontmatter.</p>"
  const NoPosts := "<p>No posts found.</p>"
  const NoSections := "<p>No sections found.</p>"
  const NoFeaturedProjects := "<p>No featured projects found. Mark projects as featured by adding <code>featured: true</code> to their frontmatter.</p>"

  function NoItemsInSection(section: string): string
  {
    "<p>No items found in section '" + section + "'.</p>"
  }

  /** `int(count)`, with the default 3. */
  function CountParam(params: Params): Result<int>
  {
    match Lookup(params, "count")
    case None => Ok(3)
    case Some(c) =>
      match PyInt(c)
      case None => Failure(IntValueErrorMessage(c))
      case Some(n) => Ok(n)
  }

  predicate IsFeatured(item: ContentItem)
  {
    Truthy(Get(item.metadata, "featured"))
  }

  /** The items of `xs` that `keep` accepts, in their order. */
  function Select<T(==)>(xs: seq<T>, keep: T -> bool): (r: seq<T>)
    ensures |r| <= |xs|
    ensures forall k :: 0 <= k < |r| ==> keep(r[k]) && r[k] in xs
  {
    if xs == [] then []
    else Select(xs[..|xs| - 1], keep) + (if keep(xs[|xs| - 1]) then [xs[|xs| - 1]] else [])
  }

  lemma {:induction false} SelectComplete<T>(xs: seq<T>, keep: T -> bool, x: T)
    requires x in xs && keep(x)
    ensures x in Select(xs, keep)
  {
    if xs[|xs| - 1] != x {
      assert x in xs[..|xs| - 1];
      SelectComplete(xs[..|xs| - 1], keep, x);
    }
  }

  /** What `featured_items` accepts: featured, and in `section` when one
      is given. */
  function FeaturedIn(section: Option<string>): ContentItem -> bool
  {
    (item: ContentItem) => (section.None? || section.value == [] || item.sectionKey == section.value) && IsFeatured(item)
  }

  function InSection(section: string): ContentItem -> bool
  {
    (item: ContentItem) => item.sectionKey == section
  }

  function FeaturedProject(): ContentItem -> bool
  {
    (item: ContentItem) => item.sectionKey == "projects" && IsFeatured(item)
  }

  /** The items a handler lists: `keep` applied to `latest_items` and the
      result cut to `count`; none when the context has no `latest_items`. */
  function Chosen(ctx: ShortcodeContext, keep: ContentItem -> bool, count: int): seq<ContentItem>
  {
    if ctx.latestItems.None? then [] else Take(Select(ctx.latestItems.value, keep), count)
  }

  function FeaturedItemsReply(ctx: ShortcodeContext, params: Params): Result<Reply>
  {
    match CountParam(params)
    case Failure(e) => Failure(e)
    case Ok(count) =>
      var items := Chosen(ctx, FeaturedIn(Lookup(params, "section")), count);
      if items == [] then Ok(Html(NoFeaturedItems)) else Ok(Render(FeaturedList(items)))
  }

  function LatestPostsReply(ctx: ShortcodeContext, params: Params): Result<Reply>
  {
    match CountParam(params)
    case Failure(e) => Failure(e)
    case Ok(count) =>
      var section := if Lookup(params, "section").Some? then Lookup(params, "section").value else "posts";
      var items := Chosen(ctx, InSection(section), count);
      if items == [] then Ok(Html(NoPosts)) else Ok(Render(PostList(items)))
  }

  /** The sections `section_list` lists without a `section` parameter:
      `config.sections` when present and non-empty, else `config.SECTIONS`. */
  function ConfiguredSections(ctx: ShortcodeContext): Sections
  {
    if ctx.config.None? then []
    else if ctx.config.value.sections.Some? && ctx.config.value.sections.value != [] then ctx.config.value.sections.value
    else if ctx.config.value.upperSections.Some? then ctx.config.value.upperSections.value
    else []
  }

  function SectionListReply(ctx: ShortcodeContext, params: Params): Result<Reply>
  {
    var section := Lookup(params, "section");
    if section.Some? && section.value != [] then
      var items := if ctx.latestItems.None? then [] else Select(ctx.latestItems.value, InSection(section.value));
      if items == [] then Ok(Html(NoItemsInSection(section.value))) else Ok(Render(SectionItems(items)))
    else
      var sections := ConfiguredSections(ctx);
      if sections == [] then Ok(Html(NoSections)) else Ok(Render(SectionIndex(sections)))
  }

  function FeaturedProjectsReply(ctx: ShortcodeContext, params: Params): Result<Reply>
  {
    match CountParam(params)
    case Failure(e) => Failure(e)
    case Ok(count) =>
      var items := Chosen(ctx, FeaturedProject(), count);
      if items == [] then Ok(Html(NoFeaturedProjects)) else Ok(Render(ProjectGrid(items)))
  }

  /** `handler(context, **params)`. */
  function Invoke(h: Handler, ctx: ShortcodeContext, params: Params): Result<Reply>
  {
    match BindError(h, params)
    case Some(e) => Failure(e)
    case None =>
      match h
      case FeaturedItems => FeaturedItemsReply(ctx, params)
      case LatestPosts => LatestPostsReply(ctx, params)
      case SectionList => SectionListReply(ctx, params)
      case FeaturedProjects => FeaturedProjectsReply(ctx, params)
  }

  /** `SHORTCODE_REGISTRY`, which `register_shortcode` fills. */
  class Registry {
    var handlers: map<string, Handler>

    constructor ()
      ensures handlers == map[]
    {
      handlers := map[];
    }

    /** `register_shortcode(name)` applied to a handler. */
    method Register(name: string, h: Handler)
      modifies this
      ensures handlers == old(handlers)[name := h]
    {
      handlers := handlers[name := h];
    }
  }

  const BuiltIns: map<string, Handler> :=
    map["featured_items" := FeaturedItems, "latest_posts" := LatestPosts,
        "section_list" := SectionList, "featured_projects" := FeaturedProjects]

  /** The registry once the module's decorators have run. */
  method BuiltInRegistry() returns (r: Registry)
    ensures fresh(r) && r.handlers == BuiltIns
  {
    r := new Registry();
    r.Register("featured_items", FeaturedItems);
    r.Register("latest_posts", LatestPosts);
    r.Register("section_list", SectionList);
    r.Register("featured_projects", FeaturedProjects);
  }

  // ---------------------------------------------------------------------------
  // replace_shortcode and process_shortcodes

  function ErrorParagraph(name: string, message: string): string
  {
    "<p>Error in shortcode [" + name + "]: " + message + "</p>"
  }

  function UnknownParagraph(name: string): string
  {
    "<p>Unknown shortcode: [" + name + "]</p>"
  }

  /** `match.group(0).strip()[1:-1]` */
  function Interior(text: string): string
  {
    var t := Strip(text);
    if |t| < 2 then [] else t[1..|t| - 1]
  }

  /** What `replace_shortcode` returns for the match `m` of `s`. */
  function Replace(s: string, m: Shortcode, ctx: ShortcodeContext, registry: map<string, Handler>,
                   render: Listing -> Result<string>): string
    requires m.start <= m.end <= |s|
  {
    var text := s[m.start..m.end];
    if Verbatim(m, text) then text else Expansion(m.name, m.params.value, ctx, registry, render)
  }

  /** The match is returned as it was: no parameter string, or a space
      between the brackets. */
  predicate Verbatim(m: Shortcode, text: string)
  {
    m.params.None? || m.params.value == [] || ' ' in Interior(text)
  }

  /** What an expanded match becomes: the handler's HTML, the error
      paragraph when it raises or its template fails, or the paragraph for
      an unknown name. */
  function Expansion(name: string, params: string, ctx: ShortcodeContext, registry: map<string, Handler>,
                     render: Listing -> Result<string>): string
  {
    if name in registry then
      match Invoke(registry[name], ctx, ParseParams(params))
      case Failure(e) => ErrorParagraph(name, e)
      case Ok(Html(html)) => html
      case Ok(Render(listing)) =>
        match render(listing)
        case Failure(e) => ErrorParagraph(name, e)
        case Ok(html) => html
    else UnknownParagraph(name)
  }

  /** Of a match, the text is kept exactly when there are no parameters or
      a space in the whitespace or the parameters; the name has none. */
  lemma VerbatimOfMatch(s: string, m: Shortcode)
    requires Matched(s, m.start, m)
    ensures Verbatim(m, s[m.start..m.end]) <==> m.params.None? || ' ' in m.gap + m.params.value
  {
    InteriorOfMatch(s, m);
    SpaceOutsideName(m.name, m.gap, ParamText(m.params));
  }

  /** A run of word characters holds no space. */
  lemma SpaceOutsideName(name: string, gap: string, params: string)
    requires AllWord(name)
    ensures ' ' in name + gap + params <==> ' ' in gap + params
  {
    var rest := gap + params;
    var all := name + gap + params;
    assert forall j :: 0 <= j < |name| ==> all[j] == name[j] && all[j] != ' ';
    assert forall j :: 0 <= j < |rest| ==> all[|name| + j] == rest[j];
  }

  /** Neither part of a text without a space holds one. */
  lemma NoSpaceInParts(a: string, b: string)
    requires ' ' !in a + b
    ensures ' ' !in a && ' ' !in b
  {
    var both := a + b;
    assert forall j :: 0 <= j < |a| ==> both[j] == a[j];
    assert forall j :: 0 <= j < |b| ==> both[|a| + j] == b[j];
  }

  function ReplaceAt(s: string, span: Span, ctx: ShortcodeContext, registry: map<string, Handler>,
                     render: Listing -> Result<string>): string
  {
    match ShortcodeAt(s, span.start)
    case Some(m) => Replace(s, m, ctx, registry, render)
    case None => []
  }

  /** `process_shortcodes(content, context)` with the given registry. */
  function ProcessShortcodes(s: string, ctx: ShortcodeContext, registry: map<string, Handler>,
                             render: Listing -> Result<string>): string
  {
    Sub(s, 0, p => ShortcodeEnd(s, p), span => ReplaceAt(s, span, ctx, registry, render))
  }

  // ---------------------------------------------------------------------------
  // The append loops of the handlers

  /** The loop `for item in context["latest_items"]: if ...: items.append(item)`. */
  method CollectItems<T(==)>(latest: seq<T>, keep: T -> bool) returns (items: seq<T>)
    ensures items == Select(latest, keep)
  {
    items := [];
    var i := 0;
    while i < |latest|
      invariant 0 <= i <= |latest|
      invariant items == Select(latest[..i], keep)
    {
      assert latest[..i + 1][..i] == latest[..i];
      if keep(latest[i]) {
        items := items + [latest[i]];
      }
      i := i + 1;
    }
    assert latest[..i] == latest;
  }

  /** `featured_items_shortcode(context, **params)` once bound. */
  method FeaturedItemsShortcode(ctx: ShortcodeContext, params: Params) returns (r: Result<Reply>)
    ensures r == FeaturedItemsReply(ctx, params)
  {
    var count := CountParam(params);
    if count.Failure? {
      return Failure(count.error);
    }
    var items: seq<ContentItem> := [];
    if ctx.latestItems.Some? {
      items := CollectItems(ctx.latestItems.value, FeaturedIn(Lookup(params, "section")));
      items := Take(items, count.value);
    }
    if items == [] {
      r := Ok(Html(NoFeaturedItems));
    } else {
      r := Ok(Render(FeaturedList(items)));
    }
  }

  /** `latest_posts_shortcode(context, **params)` once bound. */
  method LatestPostsShortcode(ctx: ShortcodeContext, params: Params) returns (r: Result<Reply>)
    ensures r == LatestPostsReply(ctx, params)
  {
    var count := CountParam(params);
    if count.Failure? {
      return Failure(count.error);
    }
    var section := if Lookup(params, "section").Some? then Lookup(params, "section").value else "posts";
    var items: seq<ContentItem> := [];
    if ctx.latestItems.Some? {
      items := CollectItems(ctx.latestItems.value, InSection(section));
      items := Take(items, count.value);
    }
    if items == [] {
      r := Ok(Html(NoPosts));
    } else {
      r := Ok(Render(PostList(items)));
    }
  }

  /** `section_list_shortcode(context, **params)` once bound. */
  method SectionListShortcode(ctx: ShortcodeContext, params: Params) returns (r: Result<Reply>)
    ensures r == SectionListReply(ctx, params)
  {
    var section := Lookup(params, "section");
    if section.Some? && section.value != [] {
      var items: seq<ContentItem> := [];
      if ctx.latestItems.Some? {
        items := CollectItems(ctx.latestItems.value, InSection(section.value));
      }
      if items == [] {
        r := Ok(Html(NoItemsInSection(section.value)));
      } else {
        r := Ok(Render(SectionItems(items)));
      }
    } else {
      var sections := ConfiguredSections(ctx);
      if sections == [] {
        r := Ok(Html(NoSections));
      } else {
        r := Ok(Render(SectionIndex(sections)));
      }
    }
  }

  /** `featured_projects_shortcode(context, **params)` once bound. */
  method FeaturedProjectsShortcode(ctx: ShortcodeContext, params: Params) returns (r: Result<Reply>)
    ensures r == FeaturedProjectsReply(ctx, params)
  {
    var count := CountParam(params);
    if count.Failure? {
      return Failure(count.error);
    }
    var items: seq<ContentItem> := [];
    if ctx.latestItems.Some? {
      items := CollectItems(ctx.latestItems.value, FeaturedProject());
      items := Take(items, count.value);
    }
    if items == [] {
      r := Ok(Html(NoFeaturedProjects));
    } else {
      r := Ok(Render(ProjectGrid(items)));
    }
  }

  // ---------------------------------------------------------------------------
  // What the handlers select

  lemma {:induction false} SelectMembership<T>(xs: seq<T>, keep: T -> bool, x: T)
    ensures x in Select(xs, keep) <==> x in xs && keep(x)
  {
    if x in xs && keep(x) {
      SelectComplete(xs, keep, x);
    }
  }

  /** `latest_posts` lists the first `count` items of its section (default
      `posts`) in the order of `latest_items`, as `items[:count]` slices
      them (a negative `count` drops that many from the end), and answers
      `No posts found` exactly when that leaves nothing. */
  lemma LatestPostsInListOrder(ctx: ShortcodeContext, params: Params, count: int)
    requires ctx.latestItems.Some? && CountParam(params) == Ok(count)
    ensures var section := if Lookup(params, "section").Some? then Lookup(params, "section").value else "posts";
      var posts := Select(ctx.latestItems.value, InSection(section));
      var n := SliceLength(|posts|, count);
      var r := LatestPostsReply(ctx, params);
      && (r == Ok(Html(NoPosts)) <==> n == 0)
      && (n != 0 ==>
            var items := r.value.listing.items;
            && r == Ok(Render(PostList(items)))
            && items == posts[..n]
            && (forall k :: 0 <= k < |items| ==> items[k].sectionKey == section && items[k] in ctx.latestItems.value))
  {
  }

  /** The handler does no sorting of its own: of two posts, whatever their
      dates, `count="1"` shows the one listed first. */
  lemma LatestPostsFirstListed(older: ContentItem, newer: ContentItem)
    requires older.sectionKey == "posts" && newer.sectionKey == "posts"
    ensures LatestPostsReply(ShortcodeContext(Some([older, newer]), None), [("count", "1")])
      == Ok(Render(PostList([older])))
  {
    var ctx := ShortcodeContext(Some([older, newer]), None);
    CountOne();
    FirstPostChosen(older, newer);
    LatestPostsOfCount(ctx, [("count", "1")], 1);
  }

  lemma FirstPostChosen(older: ContentItem, newer: ContentItem)
    requires older.sectionKey == "posts" && newer.sectionKey == "posts"
    ensures Chosen(ShortcodeContext(Some([older, newer]), None), InSection("posts"), 1) == [older]
  {
    var xs := [older, newer];
    SelectKeepsAll(xs, InSection("posts"));
    assert Take(xs, 1) == [older];
  }

  lemma LatestPostsOfCount(ctx: ShortcodeContext, params: Params, count: int)
    requires CountParam(params) == Ok(count) && Lookup(params, "section").None?
    ensures var items := Chosen(ctx, InSection("posts"), count);
      LatestPostsReply(ctx, params) == if items == [] then Ok(Html(NoPosts)) else Ok(Render(PostList(items)))
  {
  }

  lemma {:induction false} SelectKeepsAll<T>(xs: seq<T>, keep: T -> bool)
    requires forall k :: 0 <= k < |xs| ==> keep(xs[k])
    ensures Select(xs, keep) == xs
  {
    if xs != [] {
      SelectKeepsAll(xs[..|xs| - 1], keep);
    }
  }

  lemma CountOne()
    ensures CountParam([("count", "1")]) == Ok(1)
    ensures Lookup([("count", "1")], "section") == None
  {
    PyIntOfDecimal(1);
    assert IntToDecimal(1) == "1";
    assert "count" != "section";
  }

  /** `featured_items` lists, in order, the first `count` featured items
      (of `section` when one is given), as `items[:count]` slices them. */
  lemma FeaturedItemsSelection(ctx: ShortcodeContext, params: Params, count: int)
    requires ctx.latestItems.Some? && CountParam(params) == Ok(count)
    ensures var section := Lookup(params, "section");
      var featured := Select(ctx.latestItems.value, FeaturedIn(section));
      var n := SliceLength(|featured|, count);
      var r := FeaturedItemsReply(ctx, params);
      && (r == Ok(Html(NoFeaturedItems)) <==> n == 0)
      && (n != 0 ==>
            var items := r.value.listing.items;
            && r == Ok(Render(FeaturedList(items)))
            && items == featured[..n]
            && forall k :: 0 <= k < |items| ==>
                 IsFeatured(items[k]) && items[k] in ctx.latestItems.value
                 && (section.Some? && section.value != [] ==> items[k].sectionKey == section.value))
  {
    var featured := Select(ctx.latestItems.value, FeaturedIn(Lookup(params, "section")));
    forall k | 0 <= k < |featured|
      ensures IsFeatured(featured[k])
    {
      assert FeaturedIn(Lookup(params, "section"))(featured[k]);
    }
    var items := Take(featured, count);
    assert forall k :: 0 <= k < |items| ==> items[k] == featured[k];
  }

  /** `featured_projects` lists, in order, the first `count` featured items
      of the `projects` section, as `items[:count]` slices them. */
  lemma FeaturedProjectsSelection(ctx: ShortcodeContext, params: Params, count: int)
    requires ctx.latestItems.Some? && CountParam(params) == Ok(count)
    ensures var featured := Select(ctx.latestItems.value, FeaturedProject());
      var n := SliceLength(|featured|, count);
      var r := FeaturedProjectsReply(ctx, params);
      && (r == Ok(Html(NoFeaturedProjects)) <==> n == 0)
      && (n != 0 ==>
            var items := r.value.listing.items;
            && r == Ok(Render(ProjectGrid(items)))
            && items == featured[..n]
            && forall k :: 0 <= k < |items| ==>
                 IsFeatured(items[k]) && items[k].sectionKey == "projects" && items[k] in ctx.latestItems.value)
  {
    var featured := Select(ctx.latestItems.value, FeaturedProject());
    forall k | 0 <= k < |featured|
      ensures IsFeatured(featured[k]) && featured[k].sectionKey == "projects"
    {
      assert FeaturedProject()(featured[k]);
    }
    var items := Take(featured, count);
    assert forall k :: 0 <= k < |items| ==> items[k] == featured[k];
  }

  /** A negative `count` drops that many projects from the end, as slicing
      does: `count="-1"` shows every featured project but the last. */
  lemma NegativeCountDropsFromEnd(ctx: ShortcodeContext, params: Params, count: int)
    requires ctx.latestItems.Some? && CountParam(params) == Ok(count) && count < 0
    ensures var featured := Select(ctx.latestItems.value, FeaturedProject());
      FeaturedProjectsReply(ctx, params) ==
        if |featured| + count > 0 then Ok(Render(ProjectGrid(featured[..|featured| + count])))
        else Ok(Html(NoFeaturedProjects))
  {
  }

  /** `section_list` with a section lists all of that section's items, in
      order; without one it lists the configured sections, `sections` before
      `SECTIONS`. */
  lemma SectionListCases(ctx: ShortcodeContext, params: Params)
    ensures var section := Lookup(params, "section");
      var r := SectionListReply(ctx, params);
      && r.Ok?
      && (section.Some? && section.value != [] && ctx.latestItems.Some? ==>
            var items := Select(ctx.latestItems.value, InSection(section.value));
            r.value == if items == [] then Html(NoItemsInSection(section.value)) else Render(SectionItems(items)))
      && (section.Some? && section.value != [] && ctx.latestItems.None? ==> r.value == Html(NoItemsInSection(section.value)))
      && ((section.None? || section.value == []) ==>
            && (ctx.config.None? ==> r.value == Html(NoSections))
            && (ctx.config.Some? && ctx.config.value.sections.Some? && ctx.config.value.sections.value != [] ==>
                  r.value == Render(SectionIndex(ctx.config.value.sections.value)))
            && (ctx.config.Some? && (ctx.config.value.sections.None? || ctx.config.value.sections.value == []) ==>
                  r.value == if ctx.config.value.upperSections.None? || ctx.config.value.upperSections.value == []
                             then Html(NoSections) else Render(SectionIndex(ctx.config.value.upperSections.value))))
  {
  }

  // ---------------------------------------------------------------------------
  // Which matches are expanded

  /** The text between the brackets of a match. */
  lemma InteriorOfMatch(s: string, m: Shortcode)
    requires Matched(s, m.start, m)
    ensures s[m.start + 1..m.end - 1] == m.name + m.gap + ParamText(m.params)
    ensures Interior(s[m.start..m.end]) == m.name + m.gap + ParamText(m.params)
  {
    BracketedSlice(s, m.start, m.end, '[', m.name, m.gap, ParamText(m.params), ']');
    InteriorOfBrackets(s[m.start..m.end], m.name, m.gap, ParamText(m.params));
  }

  /** Brackets are not whitespace, so `strip()` leaves them and the
      interior is what they enclose. */
  lemma InteriorOfBrackets(text: string, x: string, y: string, z: string)
    requires text == "[" + x + y + z + "]"
    ensures Interior(text) == x + y + z
  {
    Bracketed(text, '[', x, y, z, ']');
    StripNoEdges(text);
  }

  /** A match without a parameter string comes back as it was, even when
      its name is registered. */
  lemma VerbatimWithoutParams(s: string, m: Shortcode, ctx: ShortcodeContext, registry: map<string, Handler>,
                              render: Listing -> Result<string>)
    requires Matched(s, m.start, m) && m.params.None?
    ensures Replace(s, m, ctx, registry, render) == s[m.start..m.end]
  {
  }

  /** A match with a space anywhere between its brackets comes back as it was. */
  lemma VerbatimWithSpace(s: string, m: Shortcode, ctx: ShortcodeContext, registry: map<string, Handler>,
                          render: Listing -> Result<string>)
    requires Matched(s, m.start, m) && ' ' in s[m.start + 1..m.end - 1]
    ensures Replace(s, m, ctx, registry, render) == s[m.start..m.end]
  {
    InteriorOfMatch(s, m);
  }

  /** Only a name followed by whitespace other than the space character
      (a tab or a line break, say), and parameters without a space, is ever
      expanded. */
  lemma ExpandedOnlyWithoutSpaces(s: string, m: Shortcode, ctx: ShortcodeContext, registry: map<string, Handler>,
                                  render: Listing -> Result<string>)
    requires Matched(s, m.start, m)
    requires Replace(s, m, ctx, registry, render) != s[m.start..m.end]
    ensures m.params.Some? && m.gap != [] && ' ' !in m.params.value
    ensures forall k :: 0 <= k < |m.gap| ==> IsSpace(m.gap[k]) && m.gap[k] != ' '
  {
    VerbatimOfMatch(s, m);
    assert !Verbatim(m, s[m.start..m.end]);
    NoSpaceInParts(m.gap, m.params.value);
  }

  /** An expanded match of an unregistered name gives the
      `Unknown shortcode` paragraph. */
  lemma UnknownName(s: string, m: Shortcode, ctx: ShortcodeContext, registry: map<string, Handler>,
                    render: Listing -> Result<string>)
    requires Matched(s, m.start, m) && m.params.Some? && ' ' !in s[m.start + 1..m.end - 1]
    requires m.name !in registry
    ensures Replace(s, m, ctx, registry, render) == "<p>Unknown shortcode: [" + m.name + "]</p>"
  {
    ExpandedWithoutSpace(s, m, ctx, registry, render);
  }

  /** A handler that raises, or a template that fails to render, gives the
      error paragraph with the exception's message. */
  lemma HandlerFailure(s: string, m: Shortcode, ctx: ShortcodeContext, registry: map<string, Handler>,
                       render: Listing -> Result<string>)
    requires Matched(s, m.start, m) && m.params.Some? && ' ' !in s[m.start + 1..m.end - 1]
    requires m.name in registry
    ensures var reply := Invoke(registry[m.name], ctx, ParseParams(m.params.value));
      && (reply.Failure? ==> Replace(s, m, ctx, registry, render) == ErrorParagraph(m.name, reply.error))
      && (reply.Ok? && reply.value.Render? && render(reply.value.listing).Failure? ==>
            Replace(s, m, ctx, registry, render) == ErrorParagraph(m.name, render(reply.value.listing).error))
  {
    ExpandedWithoutSpace(s, m, ctx, registry, render);
  }

  lemma ExpandedWithoutSpace(s: string, m: Shortcode, ctx: ShortcodeContext, registry: map<string, Handler>,
                             render: Listing -> Result<string>)
    requires Matched(s, m.start, m) && m.params.Some? && ' ' !in s[m.start + 1..m.end - 1]
    ensures Replace(s, m, ctx, registry, render) == Expansion(m.name, m.params.value, ctx, registry, render)
  {
    InteriorOfMatch(s, m);
  }

  /** A match nothing expands: no parameters, or a space inside. */
  predicate Inert(m: Shortcode)
  {
    m.params.None? || ' ' in m.gap + m.params.value
  }

  /** Text whose every match is inert comes back unchanged. */
  lemma InertTextUnchanged(s: string, ctx: ShortcodeContext, registry: map<string, Handler>, render: Listing -> Result<string>)
    requires forall p :: ShortcodeAt(s, p).Some? ==> Inert(ShortcodeAt(s, p).value)
    ensures ProcessShortcodes(s, ctx, registry, render) == s
  {
    var matchEnd := (p: nat) => ShortcodeEnd(s, p);
    var repl := (span: Span) => ReplaceAt(s, span, ctx, registry, render);
    forall p: nat | MatchesAt(s, matchEnd, p)
      ensures repl(Span(p, matchEnd(p))) == s[p..matchEnd(p)]
    {
      var m := ShortcodeAt(s, p).value;
      VerbatimOfMatch(s, m);
    }
    SubIdentity(s, 0, matchEnd, repl);
  }

  /** Text outside the matches is copied unchanged; each match is replaced
      by what `replace_shortcode` returns for it. */
  lemma OutsideMatchesCopied(s: string, ctx: ShortcodeContext, registry: map<string, Handler>, render: Listing -> Result<string>)
    ensures var spans := FindAll(s, 0, p => ShortcodeEnd(s, p));
      && ProcessShortcodes(s, ctx, registry, render) == Assemble(s, 0, spans, span => ReplaceAt(s, span, ctx, registry, render))
      && forall k :: 0 <= k < |spans| ==> ShortcodeAt(s, spans[k].start).Some? && ShortcodeAt(s, spans[k].start).value.end == spans[k].end
  {
    SubAssembles(s, 0, p => ShortcodeEnd(s, p), span => ReplaceAt(s, span, ctx, registry, render));
  }

  /** No shortcode is passed over: every match of the pattern in the text
      starts one of the spans the substitution replaces, or lies inside
      one. */
  lemma EveryMatchCovered(s: string, p: nat, m: Shortcode)
    requires Matched(s, p, m)
    ensures var spans := FindAll(s, 0, p => ShortcodeEnd(s, p));
      exists k :: 0 <= k < |spans| && spans[k].start <= p < spans[k].end
  {
    ShortcodeFound(s, p, m);
    FindAllCovers(s, 0, p => ShortcodeEnd(s, p), p);
  }
}
