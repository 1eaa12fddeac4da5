/** `datetime.datetime.strptime(text, '%Y-%m-%d').date()` as the front-matter
    date normalisation uses it. strptime turns the format into the regular
    expression `(\d\d\d\d)-(1[0-2]|0[1-9]|[1-9])-(3[01]|[12]\d|0[1-9]|[1-9]| [1-9])`,
    matches it at the start of the text, then rejects text left over and
    dates the calendar does not have. */
module Dates {
  import opened Text
  import opened Values

  predicate InRange(c: char, lo: char, hi: char)
  {
    lo <= c <= hi
  }

  /** The `%m` group at position `i`: the first alternative that matches.
      Because a `-` must follow, no later alternative could succeed where an
      earlier one matched, so this is also what backtracking finds. */
  function MonthAt(s: string, i: nat): (r: Option<(int, nat)>)
    ensures r.Some? ==> 1 <= r.value.0 <= 12 && i < r.value.1 <= |s|
  {
    if i + 1 < |s| && s[i] == '1' && InRange(s[i + 1], '0', '2') then Some((10 + DigitValue(s[i + 1]), i + 2))
    else if i + 1 < |s| && s[i] == '0' && InRange(s[i + 1], '1', '9') then Some((DigitValue(s[i + 1]), i + 2))
    else if i < |s| && InRange(s[i], '1', '9') then Some((DigitValue(s[i]), i + 1))
    else None
  }

  /** The `%d` group at position `i`: the first alternative that matches,
      since nothing follows it in the pattern. */
  function DayAt(s: string, i: nat): (r: Option<(int, nat)>)
    ensures r.Some? ==> 1 <= r.value.0 <= 31 && i < r.value.1 <= |s|
  {
    if i + 1 < |s| && s[i] == '3' && InRange(s[i + 1], '0', '1') then Some((30 + DigitValue(s[i + 1]), i + 2))
    else if i + 1 < |s| && InRange(s[i], '1', '2') && IsDigit(s[i + 1]) then
      Some((10 * DigitValue(s[i]) + DigitValue(s[i + 1]), i + 2))
    else if i + 1 < |s| && s[i] == '0' && InRange(s[i + 1], '1', '9') then Some((DigitValue(s[i + 1]), i + 2))
    else if i < |s| && InRange(s[i], '1', '9') then Some((DigitValue(s[i]), i + 1))
    else if i + 1 < |s| && s[i] == ' ' && InRange(s[i + 1], '1', '9') then Some((DigitValue(s[i + 1]), i + 2))
    else None
  }

  /** `strptime(s, '%Y-%m-%d').date()`, or `None` where it raises
      `ValueError`. */
  function StrptimeIsoDate(s: string): (r: Option<CalDate>)
    ensures r.Some? ==> ValidDate(r.value)
  {
    if |s| < 5 || !AllDigits(s[..4]) || s[4] != '-' then None
    else
      var year := DigitsValue(s[..4]);
      match MonthAt(s, 5)
      case None => None
      case Some((month, i)) =>
        if i >= |s| || s[i] != '-' then None
        else
          match DayAt(s, i + 1)
          case None => None
          case Some((day, j)) =>
            if j == |s| && ValidDate(CalDate(year, month, day)) then Some(CalDate(year, month, day))
            else None
  }

  /** The part of a date's text that is parsed: everything before the first
      space (a date-time written with a space keeps only its date). */
  function DatePart(s: string): (r: string)
    ensures ' ' !in r && StartsWith(s, r)
    ensures ' ' !in s ==> r == s
  {
    s[..FirstIndexOf(s, ' ')]
  }

  // ---------------------------------------------------------------------------
  // str(date) parses back

  function Pow10(e: nat): (r: nat)
    ensures r >= 1
  {
    if e == 0 then 1 else 10 * Pow10(e - 1)
  }

  lemma DivModUnique(n: int, m: int, k: int, r: int)
    requires m > 0 && n == k * m + r && 0 <= r < m
    ensures n % m == r
  {
    var q, s := n / m, n % m;
    assert (k - q) * m == s - r;
    MultipleBound(k - q, m);
  }

  lemma MultipleBound(x: int, m: int)
    requires m > 0
    ensures x == 0 || x * m >= m || x * m <= -m
  {
    if x > 0 {
      MulNonNegative(x - 1, m);
      assert x * m == (x - 1) * m + m;
    } else if x < 0 {
      MulNonNegative(-x - 1, m);
      assert x * m == -((-x - 1) * m) - m;
    }
  }

  lemma MulNonNegative(a: int, b: int)
    requires a >= 0 && b >= 0
    ensures a * b >= 0
  {
  }

  lemma ModStep(n: nat, p: nat)
    requires p >= 1
    ensures (n / 10 % p) * 10 + n % 10 == n % (10 * p)
  {
    var t, b, a := n / 10 / p, n / 10 % p, n % 10;
    assert n / 10 == t * p + b;
    assert n == t * (10 * p) + (b * 10 + a);
    DivModUnique(n, 10 * p, t, b * 10 + a);
  }

  lemma {:induction false} FixedValue(n: nat, w: nat)
    ensures DigitsValue(Fixed(n, w)) == n % Pow10(w)
  {
    if w > 0 {
      var f := Fixed(n, w);
      assert f[..|f| - 1] == Fixed(n / 10, w - 1);
      FixedValue(n / 10, w - 1);
      DigitOf(n % 10);
      ModStep(n, Pow10(w - 1));
    }
  }

  lemma DigitOf(d: nat)
    requires d < 10
    ensures IsDigit(DigitChar(d)) && DigitValue(DigitChar(d)) == d
  {
  }

  lemma YearText(y: nat)
    requires 1 <= y <= 9999
    ensures AllDigits(Fixed(y, 4)) && DigitsValue(Fixed(y, 4)) == y
  {
    FixedValue(y, 4);
    assert Pow10(4) == 10000;
  }

  lemma TwoDigits(n: nat)
    requires n < 100
    ensures var t := Fixed(n, 2);
      t[0] == DigitChar(n / 10) && t[1] == DigitChar(n % 10)
  {
    assert Fixed(n, 2) == Fixed(n / 10 / 10, 0) + [DigitChar(n / 10 % 10)] + [DigitChar(n % 10)];
  }

  /** `str(d)` of a real date parses back to `d`. */
  lemma DateTextRoundTrip(d: CalDate)
    requires ValidDate(d)
    ensures StrptimeIsoDate(DateText(d)) == Some(d)
  {
    var s := DateText(d);
    YearText(d.year);
    TwoDigits(d.month);
    TwoDigits(d.day);
    assert s[..4] == Fixed(d.year, 4);
    assert s[5] == DigitChar(d.month / 10) && s[6] == DigitChar(d.month % 10);
    assert s[8] == DigitChar(d.day / 10) && s[9] == DigitChar(d.day % 10);
    DigitOf(d.month / 10);
    DigitOf(d.month % 10);
    DigitOf(d.day / 10);
    DigitOf(d.day % 10);
    assert MonthAt(s, 5) == Some((d.month, 7));
    assert DayAt(s, 8) == Some((d.day, 10));
  }

  /** strptime is lenient: single-digit months and days are accepted. */
  lemma SingleDigitsAccepted()
    ensures StrptimeIsoDate("2024-3-1") == Some(CalDate(2024, 3, 1))
  {
    var s := "2024-3-1";
    assert s[..4] == "2024";
    assert AllDigits(s[..4]);
    assert DigitsValue("2024") == 2024 by {
      assert "2024"[..3] == "202" && "202"[..2] == "20" && "20"[..1] == "2" && "2"[..0] == "";
    }
    assert MonthAt(s, 5) == Some((3, 6));
    assert DayAt(s, 7) == Some((1, 8));
  }

  /** ... but a day the month does not have is rejected. */
  lemma ImpossibleDayRejected()
    ensures StrptimeIsoDate("2023-02-29") == None
  {
    var s := "2023-02-29";
    assert s[..4] == "2023";
    assert DigitsValue("2023") == 2023 by {
      assert "2023"[..3] == "202" && "202"[..2] == "20" && "20"[..1] == "2" && "2"[..0] == "";
    }
    assert MonthAt(s, 5) == Some((2, 7));
    assert DayAt(s, 8) == Some((29, 10));
  }
}
