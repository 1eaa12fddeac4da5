/** The parts of Python's `str` and `int()` that the pipeline relies on, over
    `seq<char>`. Character classes follow Python where the pipeline can meet
    the difference (whitespace is the full set `str.strip()` and `\s` use);
    word characters, digits and case mapping are modelled on ASCII. */
module Text {

  datatype Option<T> = None | Some(value: T)

  /** A value, or the message of the exception raised instead. */
  datatype Result<T> = Ok(value: T) | Failure(error: string)

  /** `xs[:n]`: the first `n` elements, or all but the last `-n` when `n`
      is negative. */
  function Take<T>(xs: seq<T>, n: int): (r: seq<T>)
    ensures |r| <= |xs| && r == xs[..|r|]
    ensures 0 <= n ==> |r| == if n < |xs| then n else |xs|
    ensures n < 0 ==> |r| == if |xs| + n < 0 then 0 else |xs| + n
  {
    if 0 <= n then (if n < |xs| then xs[..n] else xs)
    else if |xs| + n < 0 then []
    else xs[..|xs| + n]
  }

  /** How many items `xs[:count]` keeps of a list of `n`: the first
      `count`, or for a negative `count` all but the last `-count`. */
  function SliceLength(n: nat, count: int): nat
  {
    if 0 <= count then (if count < n then count else n)
    else if n + count < 0 then 0
    else n + count
  }

  lemma SliceSplit<T>(s: seq<T>, i: nat, j: nat, k: nat)
    requires i <= j <= k <= |s|
    ensures s[i..k] == s[i..j] + s[j..k]
  {
  }

  /** A slice is its first character and the rest. */
  lemma SliceFirst<T>(s: seq<T>, i: nat, k: nat)
    requires i < k <= |s|
    ensures s[i..k] == [s[i]] + s[i + 1..k]
  {
  }

  /** A slice is the rest and its last character. */
  lemma SliceLast<T>(s: seq<T>, i: nat, k: nat)
    requires i < k <= |s|
    ensures s[i..k] == s[i..k - 1] + [s[k - 1]]
  {
  }

  /** A slice of a slice is a slice of the whole. */
  lemma SliceOfSlice<T>(s: seq<T>, i: nat, j: nat, a: nat, b: nat)
    requires i <= j <= |s| && a <= b <= j - i
    ensures s[i..j][a..b] == s[i + a..i + b]
  {
    var t := s[i..j];
    forall k | 0 <= k < b - a
      ensures t[a..b][k] == s[i + a..i + b][k]
    {
      assert t[a..b][k] == t[a + k];
      assert t[a + k] == s[i + a + k];
    }
    assert |t[a..b]| == |s[i + a..i + b]|;
  }

  /** The inside of a sequence with one element at each end. */
  lemma Bracketed<T>(s: seq<T>, a: T, x: seq<T>, y: seq<T>, z: seq<T>, b: T)
    requires s == [a] + x + y + z + [b]
    ensures s[0] == a && s[|s| - 1] == b && s[1..|s| - 1] == x + y + z
  {
    assert s == [a] + (x + y + z) + [b];
  }

  /** The inside of a slice with one element at each end. */
  lemma BracketedSlice<T>(s: seq<T>, i: nat, j: nat, a: T, x: seq<T>, y: seq<T>, z: seq<T>, b: T)
    requires i <= j <= |s| && s[i..j] == [a] + x + y + z + [b]
    ensures s[i] == a && s[j - 1] == b && s[i + 1..j - 1] == x + y + z
  {
    Bracketed(s[i..j], a, x, y, z, b);
    SliceOfSlice(s, i, j, 1, j - i - 1);
  }

  /** A slice that is three sequences end to end, cut back into them. */
  lemma SliceInThree<T>(s: seq<T>, i: nat, j: nat, x: seq<T>, y: seq<T>, z: seq<T>)
    requires i <= j <= |s| && s[i..j] == x + y + z
    ensures s[i..i + |x|] == x && s[i + |x|..i + |x| + |y|] == y && s[i + |x| + |y|..j] == z
  {
    SliceOfSlice(s, i, j, 0, |x|);
    SliceOfSlice(s, i, j, |x|, |x| + |y|);
    SliceOfSlice(s, i, j, |x| + |y|, j - i);
    assert (x + y + z)[..|x|] == x;
    assert (x + y + z)[|x|..|x| + |y|] == y;
    assert (x + y + z)[|x| + |y|..] == z;
  }

  /** A slice cut at `a` and `b` between its first and last elements. */
  lemma SliceInFive<T>(s: seq<T>, i: nat, a: nat, b: nat, c: nat)
    requires i < a <= b <= c < |s|
    ensures s[i..c + 1] == [s[i]] + s[i + 1..a] + s[a..b] + s[b..c] + [s[c]]
  {
    SliceFirst(s, i, c + 1);
    SliceLast(s, i + 1, c + 1);
    SliceSplit(s, i + 1, a, c);
    SliceSplit(s, a, b, c);
    assert s[i..c + 1] == [s[i]] + (s[i + 1..a] + (s[a..b] + s[b..c])) + [s[c]];
  }

  /** A slice cut before the two elements at `e` and `e + 1` and before
      its last element. */
  lemma SliceAroundPair<T>(s: seq<T>, i: nat, e: nat, q: nat)
    requires i <= e && e + 2 <= q < |s|
    ensures s[i..q + 1] == s[i..e] + [s[e]] + [s[e + 1]] + s[e + 2..q] + [s[q]]
  {
    SliceSplit(s, i, e, q + 1);
    SliceFirst(s, e, q + 1);
    SliceFirst(s, e + 1, q + 1);
    SliceLast(s, e + 2, q + 1);
    assert s[i..q + 1] == s[i..e] + ([s[e]] + ([s[e + 1]] + (s[e + 2..q] + [s[q]])));
  }

  predicate StartsWith(s: string, prefix: string)
  {
    |prefix| <= |s| && s[..|prefix|] == prefix
  }

  predicate EndsWith(s: string, suffix: string)
  {
    |suffix| <= |s| && s[|s| - |suffix|..] == suffix
  }

  /** Python's whitespace (`str.isspace`, `str.strip()`, the `\s` class of `re`). */
  predicate IsSpace(c: char)
  {
    var n := c as int;
    n == 0x20 || 0x09 <= n <= 0x0D || 0x1C <= n <= 0x1F || n == 0x85 || n == 0xA0
    || n == 0x1680 || 0x2000 <= n <= 0x200A || n == 0x2028 || n == 0x2029
    || n == 0x202F || n == 0x205F || n == 0x3000
  }

  predicate IsDigit(c: char)
  {
    '0' <= c <= '9'
  }

  predicate IsAsciiLetter(c: char)
  {
    'a' <= c <= 'z' || 'A' <= c <= 'Z'
  }

  /** The `\w` class of `re`: letters, digits and underscore. */
  predicate IsWordChar(c: char)
  {
    IsAsciiLetter(c) || IsDigit(c) || c == '_'
  }

  function LowerChar(c: char): char
  {
    if 'A' <= c <= 'Z' then (c as int + 32) as char else c
  }

  function UpperChar(c: char): char
  {
    if 'a' <= c <= 'z' then (c as int - 32) as char else c
  }

  /** `s.lower()` */
  function Lower(s: string): (r: string)
    ensures |r| == |s|
    ensures forall i :: 0 <= i < |s| ==> r[i] == LowerChar(s[i])
  {
    seq(|s|, i requires 0 <= i < |s| => LowerChar(s[i]))
  }

  /** `s.capitalize()`: the first character upper-cased, the rest lower-cased. */
  function Capitalize(s: string): (r: string)
    ensures |r| == |s|
    ensures |s| > 0 ==> r[0] == UpperChar(s[0]) && r[1..] == Lower(s[1..])
  {
    if s == [] then [] else [UpperChar(s[0])] + Lower(s[1..])
  }

  /** `s.replace(a, b)` for single characters. */
  function ReplaceChar(s: string, a: char, b: char): (r: string)
    ensures |r| == |s|
    ensures forall i :: 0 <= i < |s| ==> r[i] == (if s[i] == a then b else s[i])
  {
    seq(|s|, i requires 0 <= i < |s| => if s[i] == a then b else s[i])
  }

  // ---------------------------------------------------------------------------
  // strip()

  function LStrip(s: string): (r: string)
    ensures |r| <= |s| && r == s[|s| - |r|..]
    ensures r == [] || !IsSpace(r[0])
  {
    if s == [] || !IsSpace(s[0]) then s else LStrip(s[1..])
  }

  function RStrip(s: string): (r: string)
    ensures |r| <= |s| && r == s[..|r|]
    ensures r == [] || !IsSpace(r[|r| - 1])
  {
    if s == [] || !IsSpace(s[|s| - 1]) then s else RStrip(s[..|s| - 1])
  }

  /** `s.strip()`: leading and trailing whitespace removed; what is left is a
      contiguous piece of `s` that neither starts nor ends with whitespace. */
  function Strip(s: string): (r: string)
    ensures |r| <= |LStrip(s)| <= |s|
    ensures r == s[|s| - |LStrip(s)|..|s| - |LStrip(s)| + |r|]
    ensures r == [] || (!IsSpace(r[0]) && !IsSpace(r[|r| - 1]))
  {
    var l := LStrip(s);
    var r := RStrip(l);
    assert r == l[..|r|];
    r
  }

  /** A string with no whitespace at either end is its own `strip()`. */
  lemma StripNoEdges(s: string)
    requires s == [] || (!IsSpace(s[0]) && !IsSpace(s[|s| - 1]))
    ensures Strip(s) == s
  {
  }

  lemma StripIdempotent(s: string)
    ensures Strip(Strip(s)) == Strip(s)
  {
    StripNoEdges(Strip(s));
  }

  // ---------------------------------------------------------------------------
  // split / join

  /** Index of the first `c` in `s`, or `|s|` when there is none. */
  function FirstIndexOf(s: string, c: char): (k: nat)
    ensures k <= |s|
    ensures k < |s| ==> s[k] == c
    ensures forall i :: 0 <= i < k ==> s[i] != c
  {
    if s == [] then 0 else if s[0] == c then 0 else 1 + FirstIndexOf(s[1..], c)
  }

  /** `s.split(c)` for a one-character separator: every piece, empty ones kept. */
  function Split(s: string, c: char): (parts: seq<string>)
    ensures |parts| > 0
    ensures forall i :: 0 <= i < |parts| ==> c !in parts[i]
    decreases |s|
  {
    var k := FirstIndexOf(s, c);
    if k == |s| then [s] else [s[..k]] + Split(s[k + 1..], c)
  }

  /** `c.join(parts)` */
  function Join(parts: seq<string>, c: char): string
  {
    if parts == [] then [] else if |parts| == 1 then parts[0] else parts[0] + [c] + Join(parts[1..], c)
  }

  lemma {:induction false} JoinSplit(s: string, c: char)
    ensures Join(Split(s, c), c) == s
    decreases |s|
  {
    var k := FirstIndexOf(s, c);
    if k < |s| {
      JoinSplit(s[k + 1..], c);
      assert s == s[..k] + [c] + s[k + 1..];
    }
  }

  lemma {:induction false} SplitJoin(parts: seq<string>, c: char)
    requires |parts| > 0
    requires forall i :: 0 <= i < |parts| ==> c !in parts[i]
    ensures Split(Join(parts, c), c) == parts
  {
    if |parts| > 1 {
      var j := Join(parts, c);
      assert j == parts[0] + [c] + Join(parts[1..], c);
      assert j[..|parts[0]|] == parts[0];
      assert FirstIndexOf(j, c) == |parts[0]| by {
        FirstIndexOfAt(j, c, |parts[0]|);
      }
      assert j[|parts[0]| + 1..] == Join(parts[1..], c);
      SplitJoin(parts[1..], c);
    } else {
      assert FirstIndexOf(parts[0], c) == |parts[0]| by {
        FirstIndexOfAbsent(parts[0], c);
      }
    }
  }

  lemma {:induction false} FirstIndexOfAt(s: string, c: char, k: nat)
    requires k < |s| && s[k] == c && c !in s[..k]
    ensures FirstIndexOf(s, c) == k
  {
    if k > 0 {
      assert s[1..][..k - 1] == s[1..k];
      FirstIndexOfAt(s[1..], c, k - 1);
    }
  }

  lemma {:induction false} FirstIndexOfAbsent(s: string, c: char)
    requires c !in s
    ensures FirstIndexOf(s, c) == |s|
  {
    if s != [] {
      FirstIndexOfAbsent(s[1..], c);
    }
  }

  /** `s.split(c, 1)` when `c in s`: the text before the first `c` and the text after it. */
  function SplitOnce(s: string, c: char): (r: (string, string))
    requires c in s
    ensures s == r.0 + [c] + r.1
    ensures c !in r.0
  {
    var k := FirstIndexOf(s, c);
    assert s == s[..k] + [c] + s[k + 1..];
    (s[..k], s[k + 1..])
  }

  predicate OccursAt(s: string, pat: string, j: nat)
  {
    j + |pat| <= |s| && s[j..j + |pat|] == pat
  }

  /** `s.find(pat, from)`: the first occurrence of `pat` at or after `from`. */
  function Find(s: string, pat: string, from: nat): (r: Option<nat>)
    requires |pat| > 0
    ensures r.Some? ==> from <= r.value && OccursAt(s, pat, r.value)
    ensures r.Some? ==> forall j :: from <= j < r.value ==> !OccursAt(s, pat, j)
    ensures r.None? ==> forall j :: from <= j ==> !OccursAt(s, pat, j)
    decreases |s| - from
  {
    if from + |pat| > |s| then None
    else if OccursAt(s, pat, from) then Some(from)
    else Find(s, pat, from + 1)
  }

  // ---------------------------------------------------------------------------
  // Decimal numbers: str(n) and int(s)

  function DigitChar(d: nat): char
    requires d < 10
  {
    ('0' as int + d) as char
  }

  function DigitValue(c: char): nat
    requires IsDigit(c)
  {
    c as int - '0' as int
  }

  predicate AllDigits(s: string)
  {
    forall i :: 0 <= i < |s| ==> IsDigit(s[i])
  }

  /** The decimal digits of `n`, without leading zeros. */
  function NatToDecimal(n: nat): (r: string)
    ensures |r| > 0 && AllDigits(r)
    ensures n > 0 ==> r[0] != '0'
  {
    if n < 10 then [DigitChar(n)] else NatToDecimal(n / 10) + [DigitChar(n % 10)]
  }

  /** The value of a run of decimal digits, most significant first. */
  function DigitsValue(s: string): nat
    requires AllDigits(s)
  {
    if s == [] then 0 else DigitsValue(s[..|s| - 1]) * 10 + DigitValue(s[|s| - 1])
  }

  lemma {:induction false} DecimalRoundTrip(n: nat)
    ensures DigitsValue(NatToDecimal(n)) == n
  {
    if n >= 10 {
      var r := NatToDecimal(n);
      assert r[..|r| - 1] == NatToDecimal(n / 10);
      DecimalRoundTrip(n / 10);
    }
  }

  /** `str(i)` for an integer. */
  function IntToDecimal(i: int): string
  {
    if i < 0 then "-" + NatToDecimal(-i) else NatToDecimal(i)
  }

  /** The digits of a literal accepted by `int()`: digits, with single
      underscores allowed between two digits. */
  predicate UnderscoredDigits(s: string)
  {
    && |s| > 0 && IsDigit(s[0]) && IsDigit(s[|s| - 1])
    && (forall i :: 0 <= i < |s| ==> IsDigit(s[i]) || s[i] == '_')
    && (forall i :: 0 <= i < |s| - 1 ==> !(s[i] == '_' && s[i + 1] == '_'))
  }

  function DropUnderscores(s: string): (r: string)
    requires forall i :: 0 <= i < |s| ==> IsDigit(s[i]) || s[i] == '_'
    ensures AllDigits(r)
  {
    if s == [] then [] else (if s[0] == '_' then [] else [s[0]]) + DropUnderscores(s[1..])
  }

  function UnsignedValue(s: string): Option<nat>
  {
    if UnderscoredDigits(s) then Some(DigitsValue(DropUnderscores(s))) else None
  }

  /** `int(s)` with base 10: surrounding whitespace ignored, an optional sign,
      then digits (single underscores allowed between digits); `None` where
      Python raises `ValueError`. */
  function PyInt(s: string): Option<int>
  {
    var t := Strip(s);
    if |t| > 0 && (t[0] == '-' || t[0] == '+') then
      match UnsignedValue(t[1..])
      case None => None
      case Some(v) => var k: int := if t[0] == '-' then -(v as int) else v; Some(k)
    else
      match UnsignedValue(t)
      case None => None
      case Some(v) => Some(v)
  }

  lemma {:induction false} DropUnderscoresOfDigits(s: string)
    requires AllDigits(s)
    ensures DropUnderscores(s) == s
  {
    if s != [] {
      DropUnderscoresOfDigits(s[1..]);
    }
  }

  lemma UnsignedValueOfDecimal(n: nat)
    ensures UnsignedValue(NatToDecimal(n)) == Some(n)
  {
    var d := NatToDecimal(n);
    DecimalRoundTrip(n);
    DropUnderscoresOfDigits(d);
    assert UnderscoredDigits(d);
  }

  /** `int()` of a digit string, with or without a minus sign. */
  lemma PyIntOfDigits(d: string, n: nat)
    requires UnsignedValue(d) == Some(n)
    ensures PyInt(d) == Some(n) && PyInt("-" + d) == Some(-(n as int))
  {
    assert IsDigit(d[0]) && IsDigit(d[|d| - 1]);
    StripNoEdges(d);
    assert PyInt(d) == Some(n);
    PyIntOfNegated(d, n);
  }

  lemma PyIntOfNegated(d: string, n: nat)
    requires UnsignedValue(d) == Some(n) && IsDigit(d[|d| - 1])
    ensures PyInt("-" + d) == Some(-(n as int))
  {
    var neg := "-" + d;
    assert neg[0] == '-' && neg[1..] == d && neg[|neg| - 1] == d[|d| - 1];
    StripNoEdges(neg);
    assert Strip(neg) == neg;
  }

  /** `int(str(i)) == i` */
  lemma PyIntOfDecimal(i: int)
    ensures PyInt(IntToDecimal(i)) == Some(i)
  {
    var n: nat := if i < 0 then -i else i;
    UnsignedValueOfDecimal(n);
    PyIntOfDigits(NatToDecimal(n), n);
  }

  /** Python's `repr()` of a string: single quotes unless the text holds a
      single quote and no double quote; backslash, the quote, tab, newline,
      carriage return, the other ASCII and Latin-1 control characters, the
      no-break space and the soft hyphen escaped. */
  function PyReprString(s: string): (r: string)
    ensures |r| >= 2
  {
    var q := if '\'' in s && '"' !in s then '"' else '\'';
    [q] + ReprBody(s, q) + [q]
  }

  function HexDigit(d: nat): char
    requires d < 16
  {
    if d < 10 then DigitChar(d) else ('a' as int + d - 10) as char
  }

  function ReprChar(c: char, q: char): string
  {
    if c == '\\' then "\\\\"
    else if c == q then ['\\', q]
    else if c == '\t' then "\\t"
    else if c == '\n' then "\\n"
    else if c == '\r' then "\\r"
    else if c as int < 0x20 || 0x7F <= c as int < 0xA1 || c as int == 0xAD then
      "\\x" + [HexDigit(c as int / 16), HexDigit(c as int % 16)]
    else [c]
  }

  function ReprBody(s: string, q: char): string
  {
    if s == [] then [] else ReprChar(s[0], q) + ReprBody(s[1..], q)
  }

  /** At most the first `n` characters (`%.<n>R` in CPython's messages). */
  function Truncate(s: string, n: nat): (r: string)
    ensures |r| <= n && StartsWith(s, r)
  {
    if |s| <= n then s else s[..n]
  }

  /** The message of the `ValueError` that `int(s)` raises. */
  function IntValueErrorMessage(s: string): string
  {
    "invalid literal for int() with base 10: " + Truncate(PyReprString(s), 200)
  }
}
