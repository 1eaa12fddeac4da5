/** Front-matter values as the pipeline sees them after YAML parsing, with
    the Python operations applied to them: truthiness, `str()`, `==` and the
    partial order `<` (which raises `TypeError` between unrelated types). */
module Values {
  import opened Text

  /** A `datetime.date`. */
  datatype CalDate = CalDate(year: int, month: int, day: int)

  /** The time of day of a naive `datetime.datetime`. */
  datatype ClockTime = ClockTime(hour: int, minute: int, second: int, microsecond: int)

  /** A metadata value: `str`, `int`, `bool`, `datetime.date`, a naive
      `datetime.datetime` (what YAML loads for a timestamp with a time of
      day), `list` or `None`. */
  datatype Value =
    | Str(s: string)
    | Int(i: int)
    | Bool(b: bool)
    | Date(d: CalDate)
    | DateTime(day: CalDate, time: ClockTime)
    | List(elems: seq<Value>)
    | Null

  predicate IsLeap(y: int)
  {
    (y % 4 == 0 && y % 100 != 0) || y % 400 == 0
  }

  function DaysInMonth(y: int, m: int): int
    requires 1 <= m <= 12
  {
    if m == 2 then (if IsLeap(y) then 29 else 28)
    else if m == 4 || m == 6 || m == 9 || m == 11 then 30
    else 31
  }

  /** What `datetime.date(y, m, d)` accepts (MINYEAR 1, MAXYEAR 9999). */
  predicate ValidDate(d: CalDate)
  {
    1 <= d.year <= 9999 && 1 <= d.month <= 12 && 1 <= d.day <= DaysInMonth(d.year, d.month)
  }

  /** `datetime.date.min` and `datetime.date.max` */
  const DateMin := CalDate(1, 1, 1)
  const DateMax := CalDate(9999, 12, 31)

  predicate DateLt(a: CalDate, b: CalDate)
  {
    a.year < b.year || (a.year == b.year && (a.month < b.month || (a.month == b.month && a.day < b.day)))
  }

  predicate TimeLt(a: ClockTime, b: ClockTime)
  {
    a.hour < b.hour || (a.hour == b.hour && (a.minute < b.minute || (a.minute == b.minute
      && (a.second < b.second || (a.second == b.second && a.microsecond < b.microsecond)))))
  }

  /** `<` between two naive datetimes: by day, then by time of day. */
  predicate DateTimeLt(a: CalDate, s: ClockTime, b: CalDate, t: ClockTime)
  {
    DateLt(a, b) || (a == b && TimeLt(s, t))
  }

  /** `isinstance(v, datetime.date)`, which a `datetime` also passes. */
  predicate IsDateObject(v: Value)
  {
    v.Date? || v.DateTime?
  }

  lemma DateBounds(d: CalDate)
    requires ValidDate(d)
    ensures !DateLt(d, DateMin) && !DateLt(DateMax, d)
  {
  }

  /** Python truthiness, as `if value:` tests it. */
  predicate Truthy(v: Value)
  {
    match v
    case Str(s) => s != []
    case Int(i) => i != 0
    case Bool(b) => b
    case Date(_) => true
    case DateTime(_, _) => true
    case List(xs) => xs != []
    case Null => false
  }

  // ---------------------------------------------------------------------------
  // str() and repr()

  /** The last `width` decimal digits of `n`, zero-padded (`%0<width>d`
      for the values a date holds). */
  function Fixed(n: nat, width: nat): (r: string)
    ensures |r| == width && AllDigits(r)
  {
    if width == 0 then [] else Fixed(n / 10, width - 1) + [DigitChar(n % 10)]
  }

  /** `str(date)`: ISO format, YYYY-MM-DD. */
  function DateText(d: CalDate): (r: string)
    ensures |r| == 10 && r[4] == '-' && r[7] == '-'
    ensures forall k :: 0 <= k < |r| ==> IsDigit(r[k]) || r[k] == '-'
  {
    var y: nat := if d.year < 0 then 0 else d.year;
    var m: nat := if d.month < 0 then 0 else d.month;
    var dd: nat := if d.day < 0 then 0 else d.day;
    Fixed(y, 4) + "-" + Fixed(m, 2) + "-" + Fixed(dd, 2)
  }

  function NonNeg(n: int): nat
  {
    if n < 0 then 0 else n
  }

  /** `str(time)`: HH:MM:SS, with `.ffffff` only when there are microseconds. */
  function TimeText(t: ClockTime): string
  {
    Fixed(NonNeg(t.hour), 2) + ":" + Fixed(NonNeg(t.minute), 2) + ":" + Fixed(NonNeg(t.second), 2)
      + (if t.microsecond != 0 then "." + Fixed(NonNeg(t.microsecond), 6) else "")
  }

  /** `str(v)`, as an f-string renders a value. */
  function PyStr(v: Value): string
    decreases v, 1
  {
    match v
    case Str(s) => s
    case Int(i) => IntToDecimal(i)
    case Bool(b) => if b then "True" else "False"
    case Date(d) => DateText(d)
    case DateTime(d, t) => DateText(d) + " " + TimeText(t)
    case List(xs) => "[" + ReprList(xs) + "]"
    case Null => "None"
  }

  /** `repr(v)`, as `str()` of a list shows its elements. */
  function PyRepr(v: Value): string
    decreases v, 2
  {
    match v
    case Str(s) => PyReprString(s)
    case Date(d) =>
      "datetime.date(" + IntToDecimal(d.year) + ", " + IntToDecimal(d.month) + ", " + IntToDecimal(d.day) + ")"
    case DateTime(d, t) =>
      // a zero microsecond is omitted, and then a zero second too
      var tail :=
        if t.microsecond != 0 then ", " + IntToDecimal(t.second) + ", " + IntToDecimal(t.microsecond)
        else if t.second != 0 then ", " + IntToDecimal(t.second)
        else "";
      "datetime.datetime(" + IntToDecimal(d.year) + ", " + IntToDecimal(d.month) + ", " + IntToDecimal(d.day)
        + ", " + IntToDecimal(t.hour) + ", " + IntToDecimal(t.minute) + tail + ")"
    case _ => PyStr(v)
  }

  function ReprList(xs: seq<Value>): string
    decreases xs
  {
    if xs == [] then []
    else if |xs| == 1 then PyRepr(xs[0])
    else PyRepr(xs[0]) + ", " + ReprList(xs[1..])
  }

  // ---------------------------------------------------------------------------
  // == and <

  /** The number a numeric value stands for (`bool` is a subclass of `int`). */
  function Num(v: Value): int
    requires v.Int? || v.Bool?
  {
    if v.Int? then v.i else if v.b then 1 else 0
  }

  predicate IsNumeric(v: Value)
  {
    v.Int? || v.Bool?
  }

  /** Python `a == b` (never raises; a `datetime` never equals a `date`). */
  predicate PyEq(a: Value, b: Value)
    decreases a
  {
    if IsNumeric(a) && IsNumeric(b) then Num(a) == Num(b)
    else match (a, b)
      case (Str(x), Str(y)) => x == y
      case (Date(x), Date(y)) => x == y
      case (DateTime(x, s), DateTime(y, t)) => x == y && s == t
      case (List(x), List(y)) => ListEq(x, y)
      case (Null, Null) => true
      case _ => false
  }

  predicate ListEq(x: seq<Value>, y: seq<Value>)
    decreases x
  {
    if x == [] || y == [] then x == [] && y == []
    else PyEq(x[0], y[0]) && ListEq(x[1..], y[1..])
  }

  /** Lexicographic order on code points, as Python compares `str`. */
  predicate StrLt(x: string, y: string)
  {
    if y == [] then false
    else if x == [] then true
    else if x[0] != y[0] then x[0] < y[0]
    else StrLt(x[1..], y[1..])
  }

  /** Python `a < b`: `Some(result)`, or `None` where Python raises
      `TypeError` (unrelated types, `None` against anything, and a
      `datetime` against a `date`, either way round). Lists compare at their
      first position whose elements are not `==`. */
  function Lt(a: Value, b: Value): Option<bool>
    decreases a
  {
    if IsNumeric(a) && IsNumeric(b) then Some(Num(a) < Num(b))
    else match (a, b)
      case (Str(x), Str(y)) => Some(StrLt(x, y))
      case (Date(x), Date(y)) => Some(DateLt(x, y))
      case (DateTime(x, s), DateTime(y, t)) => Some(DateTimeLt(x, s, y, t))
      case (List(x), List(y)) => ListLt(x, y)
      case _ => None
  }

  function ListLt(x: seq<Value>, y: seq<Value>): Option<bool>
    decreases x
  {
    if x == [] || y == [] then Some(|x| < |y|)
    else if !PyEq(x[0], y[0]) then Lt(x[0], y[0])
    else ListLt(x[1..], y[1..])
  }

  predicate Comparable(a: Value, b: Value)
  {
    Lt(a, b).Some?
  }

  /** The type name Python's messages show for a value. */
  function TypeName(v: Value): string
  {
    match v
    case Str(_) => "str"
    case Int(_) => "int"
    case Bool(_) => "bool"
    case Date(_) => "datetime.date"
    case DateTime(_, _) => "datetime.datetime"
    case List(_) => "list"
    case Null => "NoneType"
  }

  /** The operands of the `<` that raises when `a < b` raises: two lists
      raise at the first position whose elements are not `==`. */
  function UnorderedPair(a: Value, b: Value): (r: (Value, Value))
    requires Lt(a, b).None?
    ensures Lt(r.0, r.1).None? && !(r.0.List? && r.1.List?)
    decreases a
  {
    if a.List? && b.List? then UnorderedInLists(a.elems, b.elems) else (a, b)
  }

  function UnorderedInLists(x: seq<Value>, y: seq<Value>): (r: (Value, Value))
    requires ListLt(x, y).None?
    ensures Lt(r.0, r.1).None? && !(r.0.List? && r.1.List?)
    decreases x
  {
    if !PyEq(x[0], y[0]) then UnorderedPair(x[0], y[0]) else UnorderedInLists(x[1..], y[1..])
  }

  /** The message of that `TypeError`. A `datetime` refuses a `date`
      itself, and names itself first whichever side it is on. */
  function LtErrorMessage(a: Value, b: Value): string
    requires Lt(a, b).None?
  {
    var (x, y) := UnorderedPair(a, b);
    if (x.DateTime? && y.Date?) || (x.Date? && y.DateTime?) then
      "can't compare datetime.datetime to datetime.date"
    else
      "'<' not supported between instances of '" + TypeName(x) + "' and '" + TypeName(y) + "'"
  }

  // ---------------------------------------------------------------------------
  // Properties of == and <

  lemma {:induction false} PyEqSymmetric(a: Value, b: Value)
    ensures PyEq(a, b) == PyEq(b, a)
    decreases a
  {
    if !(IsNumeric(a) && IsNumeric(b)) {
      match (a, b)
      case (List(x), List(y)) => ListEqSymmetric(x, y);
      case _ =>
    }
  }

  lemma {:induction false} ListEqSymmetric(x: seq<Value>, y: seq<Value>)
    ensures ListEq(x, y) == ListEq(y, x)
    decreases x
  {
    if x != [] && y != [] {
      PyEqSymmetric(x[0], y[0]);
      ListEqSymmetric(x[1..], y[1..]);
    }
  }

  lemma {:induction false} StrLtAsymmetric(x: string, y: string)
    ensures StrLt(x, y) ==> !StrLt(y, x)
  {
    if x != [] && y != [] && x[0] == y[0] {
      StrLtAsymmetric(x[1..], y[1..]);
    }
  }

  /** `<` is asymmetric, and raises for `b < a` exactly when it raises for `a < b`. */
  lemma {:induction false} LtAsymmetric(a: Value, b: Value)
    ensures Lt(a, b).Some? <==> Lt(b, a).Some?
    ensures Lt(a, b) == Some(true) ==> Lt(b, a) == Some(false)
    decreases a
  {
    if !(IsNumeric(a) && IsNumeric(b)) {
      match (a, b)
      case (Str(x), Str(y)) => StrLtAsymmetric(x, y);
      case (List(x), List(y)) => ListLtAsymmetric(x, y);
      case _ =>
    }
  }

  lemma {:induction false} ListLtAsymmetric(x: seq<Value>, y: seq<Value>)
    ensures ListLt(x, y).Some? <==> ListLt(y, x).Some?
    ensures ListLt(x, y) == Some(true) ==> ListLt(y, x) == Some(false)
    decreases x
  {
    if x != [] && y != [] {
      PyEqSymmetric(x[0], y[0]);
      if !PyEq(x[0], y[0]) {
        LtAsymmetric(x[0], y[0]);
      } else {
        ListLtAsymmetric(x[1..], y[1..]);
      }
    }
  }

  /** The comparison classes of scalar values: numbers (`int` and `bool`),
      strings, dates, datetimes. */
  datatype Kind = Numeric | Text | Day | Moment | Other

  function KindOf(v: Value): Kind
  {
    if IsNumeric(v) then Numeric
    else if v.Str? then Text
    else if v.Date? then Day
    else if v.DateTime? then Moment
    else Other
  }

  predicate IsScalar(v: Value)
  {
    KindOf(v) != Other
  }

  /** Among scalars, `<` is defined exactly between values of one class. */
  lemma ScalarComparable(a: Value, b: Value)
    requires IsScalar(a) && IsScalar(b)
    ensures Comparable(a, b) <==> KindOf(a) == KindOf(b)
  {
  }

  lemma {:induction false} StrLtTotal(x: string, y: string)
    ensures x != y ==> StrLt(x, y) || StrLt(y, x)
  {
    if x != [] && y != [] && x[0] == y[0] {
      StrLtTotal(x[1..], y[1..]);
      assert x == [x[0]] + x[1..] && y == [y[0]] + y[1..];
    }
  }

  lemma {:induction false} StrNotLtTransitive(x: string, y: string, z: string)
    requires !StrLt(y, x) && !StrLt(z, y)
    ensures !StrLt(z, x)
  {
    if x != [] && y != [] && z != [] && x[0] == y[0] && y[0] == z[0] {
      StrNotLtTransitive(x[1..], y[1..], z[1..]);
    }
  }

  /** Among scalars of one class, "not less than" is transitive, so a
      sequence ordered pair by pair is ordered throughout. */
  lemma ScalarNotLtTransitive(a: Value, b: Value, c: Value)
    requires IsScalar(a) && KindOf(a) == KindOf(b) == KindOf(c)
    requires Lt(b, a) == Some(false) && Lt(c, b) == Some(false)
    ensures Lt(c, a) == Some(false)
  {
    if a.Str? {
      StrNotLtTransitive(a.s, b.s, c.s);
    }
  }
}
